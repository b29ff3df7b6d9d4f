/**
 * The blocking queue of El/Queue.hpp: producers and consumers share one mutex and one condition
 * variable, and every signal wakes one of them, of whatever kind.
 *
 * The class holds the fields of the queue; each method is one critical section, proved against a
 * function on State.  The step system runs these sections in any order.
 */
module BlockingQueue {

  import opened Wrappers

  datatype Strategy = Default | Back | Front | Random

  /** The largest result of rand. */
  const RAND_MAX := 0x7FFF_FFFF

  /** size, waiting and awaking are never negative in a reachable state: see Inv. */
  datatype State<T> = State(max: nat, contents: seq<T>, size: int, waiting: int, awaking: int)

  /** How a critical section ends. */
  datatype Outcome<T> = Enqueued | Dequeued(x: T) | Refused | MustWait | Failed

  // --- Critical sections --------------------------------------------------------------------

  /** The place that rand draws in a queue of the size. */
  function RandomPlace(size: nat, random: nat): (i: nat)
    requires random <= RAND_MAX
    ensures i <= size
  {
    RandomBelow(size, random);
    random * size / (RAND_MAX + 1)
  }

  lemma RandomBelow(size: nat, random: nat)
    requires random <= RAND_MAX
    ensures random * size / (RAND_MAX + 1) <= size
  {
    assert random * size <= (RAND_MAX + 1) * size;
  }

  /** The position at which a new element is put; random is the result of rand. */
  function Position(strategy: Strategy, size: nat, random: nat): (i: nat)
    requires random <= RAND_MAX
    ensures i <= size
  {
    match strategy
    case Front => 0
    case Random => RandomPlace(size, random)
    case _ => size
  }

  /** An element to enqueue, with its strategy and the random number drawn for it. */
  datatype Item<T> = Item(x: T, strategy: Strategy, random: nat)

  predicate Drawable<T>(item: Item<T>) {
    item.random <= RAND_MAX
  }

  function Added<T>(q: State<T>, item: Item<T>): State<T>
    requires Drawable(item)
  {
    var i := Position(item.strategy, |q.contents|, item.random);
    q.(contents := q.contents[..i] + [item.x] + q.contents[i..], size := q.size + 1)
  }

  function Removed<T>(q: State<T>): State<T>
    requires q.contents != []
  {
    q.(contents := q.contents[1..], size := q.size - 1)
  }

  /** The loop condition of a waiter fails: its operation may go on. */
  predicate CanProceed<T>(q: State<T>, producer: bool) {
    q.max == 0 || if producer then q.size < q.max else q.size != 0
  }

  /** A thread finds awaking set when it is about to wait. */
  function BeforeWait<T>(q: State<T>): (State<T>, Outcome<T>) {
    if q.awaking > 0 then (q, Refused) else (q.(waiting := q.waiting + 1), MustWait)
  }

  function EnqueueSection<T>(q: State<T>, item: Item<T>, zeroWait: bool): (State<T>, Outcome<T>)
    requires Drawable(item)
  {
    if q.size < q.max then (Added(q, item), Enqueued)
    else if q.max == 0 || zeroWait then (q, Refused)
    else BeforeWait(q)
  }

  function DequeueSection<T>(q: State<T>, zeroWait: bool): (State<T>, Outcome<T>)
    requires q.size != 0 ==> q.contents != []
  {
    if q.size != 0 then (Removed(q), Dequeued(q.contents[0]))
    else if q.max == 0 || zeroWait then (q, Refused)
    else BeforeWait(q)
  }

  /** A waiter whose wait was signalled; item is what a producer holds. */
  function ResumeSection<T>(q: State<T>, producer: bool, item: Item<T>): (State<T>, Outcome<T>)
    requires Drawable(item)
    requires q.size != 0 ==> q.contents != []
  {
    var left := q.(waiting := q.waiting - 1);
    if !CanProceed(q, producer) then if q.awaking > 0 then (left, Refused) else (q, MustWait)
    else if producer then if q.max != 0 then (Added(left, item), Enqueued) else (left, Refused)
    else if q.size != 0 then (Removed(left), Dequeued(q.contents[0]))
    else (left, Refused)
  }

  class Queue<T(0)> {
    var contents: seq<T>
    var maxSize: nat
    var size: int
    var waiting: int
    var awaking: int

    function View(): State<T>
      reads this
    {
      State(maxSize, contents, size, waiting, awaking)
    }

    constructor (maxSize: nat)
      ensures View() == State(maxSize, [], 0, 0, 0)
    {
      this.maxSize := maxSize;
      contents := [];
      size, waiting, awaking := 0, 0, 0;
    }

    method DoEnqueue(item: Item<T>)
      requires Drawable(item) && size == |contents|
      modifies this`contents, this`size
      ensures View() == Added(old(View()), item)
    {
      hide RandomPlace;
      match item.strategy {
        case Back =>
          contents := contents + [item.x];
          assert contents[..size] + [item.x] + contents[size..size] == contents;
        case Default =>
          contents := contents + [item.x];
          assert contents[..size] + [item.x] + contents[size..size] == contents;
        case Front =>
          contents := [item.x] + contents;
        case Random =>
          var i := RandomPlace(size, item.random);
          contents := contents[..i] + [item.x] + contents[i..];
      }
      size := size + 1;
    }

    /** enqueue up to its first wait; signal tells whether the condition is signalled. */
    method Enqueue(item: Item<T>, zeroWait: bool) returns (o: Outcome<T>, signal: bool)
      requires Drawable(item) && size == |contents|
      modifies this
      ensures (View(), o) == EnqueueSection(old(View()), item, zeroWait)
      ensures signal == o.Enqueued?
    {
      signal := false;
      if size < maxSize {
        DoEnqueue(item);
        return Enqueued, true;
      }
      if maxSize == 0 || zeroWait {
        return Refused, false;
      }
      waiting := waiting + 1;
      if awaking > 0 {
        waiting := waiting - 1;
        return Refused, false;
      }
      o := MustWait;
    }

    /** enqueue after a wait that was signalled. */
    method ResumeEnqueue(item: Item<T>) returns (o: Outcome<T>, signal: bool)
      requires Drawable(item) && size == |contents|
      modifies this
      ensures (View(), o) == ResumeSection(old(View()), true, item)
      ensures signal == CanProceed(old(View()), true)
    {
      if maxSize != 0 && size >= maxSize {
        if awaking > 0 {
          waiting := waiting - 1;
          return Refused, false;
        }
        return MustWait, false;
      }
      waiting := waiting - 1;
      if maxSize != 0 {
        DoEnqueue(item);
      }
      signal := true;
      o := if maxSize != 0 then Enqueued else Refused;
    }

    method PopFront() returns (x: T)
      requires size == |contents| != 0
      modifies this`contents, this`size
      ensures View() == Removed(old(View())) && x == old(contents)[0]
    {
      x := contents[0];
      contents := contents[1..];
      size := size - 1;
    }

    /** dequeue up to its first wait. */
    method Dequeue(zeroWait: bool) returns (o: Outcome<T>, signal: bool)
      requires size == |contents|
      modifies this
      ensures (View(), o) == DequeueSection(old(View()), zeroWait)
      ensures signal == o.Dequeued?
    {
      signal := false;
      if size != 0 {
        var x := PopFront();
        return Dequeued(x), true;
      }
      if maxSize == 0 || zeroWait {
        return Refused, false;
      }
      waiting := waiting + 1;
      if awaking > 0 {
        waiting := waiting - 1;
        return Refused, false;
      }
      o := MustWait;
    }

    /** dequeue after a wait that was signalled; a consumer holds no item, so any will do. */
    method ResumeDequeue(ghost item: Item<T>) returns (o: Outcome<T>, signal: bool)
      requires Drawable(item) && size == |contents|
      modifies this
      ensures (View(), o) == ResumeSection(old(View()), false, item)
      ensures signal == CanProceed(old(View()), false)
    {
      if maxSize != 0 && size == 0 {
        if awaking > 0 {
          waiting := waiting - 1;
          return Refused, false;
        }
        return MustWait, false;
      }
      waiting := waiting - 1;
      o := Refused;
      if size != 0 {
        var x := PopFront();
        o := Dequeued(x);
      }
      signal := true;
    }

    /** Either operation after a wait that timed out or failed. */
    method GiveUp(timedOut: bool) returns (o: Outcome<T>)
      modifies this`waiting
      ensures View() == old(View()).(waiting := old(waiting) - 1)
      ensures o == if timedOut then Refused else Failed
    {
      waiting := waiting - 1;
      o := if timedOut then Refused else Failed;
    }

    /** awake up to its loop; the loop is entered only if somebody waits. */
    method StartAwake() returns (loops: bool)
      modifies this`awaking
      ensures loops == (old(waiting) != 0)
      ensures View() == if loops then old(View()).(awaking := old(awaking) + 1) else old(View())
    {
      if waiting == 0 {
        return false;
      }
      awaking := awaking + 1;
      loops := true;
    }

    /** The check of the awake loop, after its signal. */
    method CheckAwake() returns (done: bool)
      modifies this`awaking
      ensures done == (old(waiting) == 0)
      ensures View() == if done then old(View()).(awaking := old(awaking) - 1) else old(View())
    {
      if waiting == 0 {
        awaking := awaking - 1;
        return true;
      }
      done := false;
    }

    /** max_size(val); the condition is signalled afterwards. */
    method SetMaxSize(val: nat)
      modifies this`maxSize
      ensures View() == old(View()).(max := val)
    {
      maxSize := val;
    }
  }

  // --- The step system ----------------------------------------------------------------------

  /** A thread inside one of the two waiting operations. */
  datatype Waiter = Waiter(id: nat, producer: bool)

  /**
   * sleeping waiters are unsignalled; woken ones have left the wait and not run yet, the called ones among
   * them because of a signal and the others spuriously; the wait of an expired one timed out or failed.
   * awakers are the threads in the loop of awake.
   * entered and left record the elements in the order they were enqueued and dequeued.
   */
  datatype System<T> = System(
    q: State<T>, sleeping: set<Waiter>, woken: set<Waiter>, called: set<Waiter>, expired: set<Waiter>,
    awakers: set<nat>, entered: seq<T>, left: seq<T>)

  datatype Step<T> =
    | CallEnqueue(w: Waiter, item: Item<T>, zeroWait: bool, signalled: Option<Waiter>)
    | CallDequeue(w: Waiter, zeroWait: bool, signalled: Option<Waiter>)
    | Resume(w: Waiter, item: Item<T>, signalled: Option<Waiter>)
    | Expire(w: Waiter)
    | Abandon(w: Waiter)
    | Spurious(w: Waiter)
    | SetMax(val: nat, signalled: Option<Waiter>)
    | EnterAwake(t: nat)
    | SignalAwake(t: nat, signalled: Option<Waiter>)
    | CheckAwake(t: nat)

  ghost function Waiters<T>(s: System<T>): set<Waiter> {
    s.sleeping + s.woken + s.expired
  }

  /** A signal wakes one sleeping waiter, whichever it likes, and is lost only if nobody sleeps. */
  ghost predicate CanSignal(sleeping: set<Waiter>, signalled: Option<Waiter>) {
    match signalled case Some(w) => w in sleeping case None => sleeping == {}
  }

  ghost predicate Enabled<T>(s: System<T>, step: Step<T>) {
    match step
    case CallEnqueue(w, item, _, signalled) =>
      w.producer && w !in Waiters(s) && Drawable(item) && CanSignal(s.sleeping, signalled)
    case CallDequeue(w, _, signalled) => !w.producer && w !in Waiters(s) && CanSignal(s.sleeping, signalled)
    case Resume(w, item, signalled) => w in s.woken && Drawable(item) && CanSignal(s.sleeping, signalled)
    case Expire(w) => w in s.sleeping
    case Abandon(w) => w in s.expired
    case Spurious(w) => w in s.sleeping
    case SetMax(_, signalled) => CanSignal(s.sleeping, signalled)
    case EnterAwake(t) => t !in s.awakers
    case SignalAwake(t, signalled) => t in s.awakers && CanSignal(s.sleeping, signalled)
    case CheckAwake(t) => t in s.awakers
  }

  ghost function Signalled<T>(s: System<T>, signalled: Option<Waiter>): System<T> {
    match signalled
    case None => s
    case Some(w) => s.(sleeping := s.sleeping - {w}, woken := s.woken + {w}, called := s.called + {w})
  }

  /** The state after the section of waiter w, who is none of the waiters of s, with its outcome and its signal. */
  ghost function Finish<T>(s: System<T>, w: Waiter, item: Option<Item<T>>, r: (State<T>, Outcome<T>),
    signals: bool, signalled: Option<Waiter>): System<T>
  {
    var s' := s.(q := r.0,
      sleeping := if r.1.MustWait? then s.sleeping + {w} else s.sleeping,
      entered := if r.1.Enqueued? && item.Some? then s.entered + [item.value.x] else s.entered,
      left := if r.1.Dequeued? then s.left + [r.1.x] else s.left);
    if signals then Signalled(s', signalled) else s'
  }

  ghost predicate SizeOk<T>(q: State<T>) {
    q.size == |q.contents|
  }

  /** A woken waiter goes on. */
  ghost function Resumed<T>(s: System<T>, w: Waiter): System<T> {
    s.(woken := s.woken - {w}, called := s.called - {w})
  }

  ghost function Next<T>(s: System<T>, step: Step<T>): System<T>
    requires SizeOk(s.q) && Enabled(s, step)
  {
    match step
    case CallEnqueue(w, item, zeroWait, signalled) =>
      var r := EnqueueSection(s.q, item, zeroWait);
      Finish(s, w, Some(item), r, r.1.Enqueued?, signalled)
    case CallDequeue(w, zeroWait, signalled) =>
      var r := DequeueSection(s.q, zeroWait);
      Finish(s, w, None, r, r.1.Dequeued?, signalled)
    case Resume(w, item, signalled) =>
      var r := ResumeSection(s.q, w.producer, item);
      Finish(Resumed(s, w), w, Some(item), r, CanProceed(s.q, w.producer), signalled)
    case Expire(w) => s.(sleeping := s.sleeping - {w}, expired := s.expired + {w})
    case Abandon(w) => s.(expired := s.expired - {w}, q := s.q.(waiting := s.q.waiting - 1))
    case Spurious(w) => s.(sleeping := s.sleeping - {w}, woken := s.woken + {w})
    case SetMax(val, signalled) => Signalled(s.(q := s.q.(max := val)), signalled)
    case EnterAwake(t) =>
      if s.q.waiting == 0 then s else s.(q := s.q.(awaking := s.q.awaking + 1), awakers := s.awakers + {t})
    case SignalAwake(t, signalled) => Signalled(s, signalled)
    case CheckAwake(t) =>
      if s.q.waiting == 0 then s.(q := s.q.(awaking := s.q.awaking - 1), awakers := s.awakers - {t}) else s
  }

  // --- What every step keeps ----------------------------------------------------------------

  /** Each waiter is in one of the three states, and together they number n. */
  ghost predicate Counted(sleeping: set<Waiter>, woken: set<Waiter>, expired: set<Waiter>, n: int) {
    && sleeping !! woken && sleeping !! expired && woken !! expired
    && n == |sleeping| + |woken| + |expired|
  }

  ghost predicate WaitersInv<T>(s: System<T>) {
    Counted(s.sleeping, s.woken, s.expired, s.q.waiting) && s.called <= s.woken
  }

  /** Nothing is lost or made up: the elements enqueued are those dequeued and those still inside. */
  ghost predicate Conserved<T>(s: System<T>) {
    SizeOk(s.q) && multiset(s.entered) == multiset(s.left) + multiset(s.q.contents)
  }

  ghost predicate Inv<T>(s: System<T>) {
    Conserved(s) && WaitersInv(s) && s.q.awaking == |s.awakers|
  }

  lemma AddedConserves<T>(q: State<T>, item: Item<T>)
    requires SizeOk(q) && Drawable(item)
    ensures SizeOk(Added(q, item)) && multiset(Added(q, item).contents) == multiset(q.contents) + multiset{item.x}
  {
    var i := Position(item.strategy, |q.contents|, item.random);
    assert q.contents == q.contents[..i] + q.contents[i..];
  }

  /** What a section does to the contents, given its outcome; item is used only if it is Enqueued. */
  ghost predicate Moved<T>(q: State<T>, r: (State<T>, Outcome<T>), item: Option<Item<T>>) {
    && SizeOk(r.0)
    && (r.1.Enqueued? ==> item.Some?)
    && match r.1
       case Enqueued => multiset(r.0.contents) == multiset(q.contents) + multiset{item.value.x}
       case Dequeued(x) => q.contents == [x] + r.0.contents
       case _ => r.0.contents == q.contents
  }

  lemma EnqueueMoves<T>(q: State<T>, item: Item<T>, zeroWait: bool)
    requires SizeOk(q) && Drawable(item)
    ensures Moved(q, EnqueueSection(q, item, zeroWait), Some(item))
  {
    AddedConserves(q, item);
  }

  lemma DequeueMoves<T>(q: State<T>, zeroWait: bool)
    requires SizeOk(q)
    ensures Moved(q, DequeueSection(q, zeroWait), None)
  {}

  lemma ResumeMoves<T>(q: State<T>, producer: bool, item: Item<T>)
    requires SizeOk(q) && Drawable(item)
    ensures Moved(q, ResumeSection(q, producer, item), Some(item))
  {
    AddedConserves(q.(waiting := q.waiting - 1), item);
    hide Added, Drawable;
  }

  lemma FinishConserves<T>(s: System<T>, w: Waiter, item: Option<Item<T>>, r: (State<T>, Outcome<T>),
    signals: bool, signalled: Option<Waiter>)
    requires Conserved(s) && Moved(s.q, r, item)
    ensures Conserved(Finish(s, w, item, r, signals, signalled))
  {}

  lemma StepConserves<T>(s: System<T>, step: Step<T>)
    requires Conserved(s) && Enabled(s, step)
    ensures Conserved(Next(s, step))
  {
    match step {
      case CallEnqueue(w, item, zeroWait, signalled) =>
        var r := EnqueueSection(s.q, item, zeroWait);
        EnqueueMoves(s.q, item, zeroWait);
        FinishConserves(s, w, Some(item), r, r.1.Enqueued?, signalled);
      case CallDequeue(w, zeroWait, signalled) =>
        var r := DequeueSection(s.q, zeroWait);
        DequeueMoves(s.q, zeroWait);
        FinishConserves(s, w, None, r, r.1.Dequeued?, signalled);
      case Resume(w, item, signalled) =>
        ResumeMoves(s.q, w.producer, item);
        FinishConserves(Resumed(s, w), w, Some(item), ResumeSection(s.q, w.producer, item),
          CanProceed(s.q, w.producer), signalled);
      case _ =>
    }
    hide Finish, Moved, Waiters, CanSignal, EnqueueSection, DequeueSection, ResumeSection, CanProceed;
  }

  /** No element is admitted into a queue that holds max_size elements or more. */
  lemma AdmittedBelowMax<T>(s: System<T>, step: Step<T>)
    requires SizeOk(s.q) && Enabled(s, step)
    ensures |Next(s, step).q.contents| > |s.q.contents| ==>
      |s.q.contents| < s.q.max && |Next(s, step).q.contents| <= Next(s, step).q.max
  {
    hide Waiters, CanSignal;
  }

  /** All elements have left in the order in which they entered. */
  ghost predicate InOrder<T>(s: System<T>) {
    s.entered == s.left + s.q.contents
  }

  ghost predicate PutsBack<T>(step: Step<T>) {
    step.CallEnqueue? || step.Resume? ==> step.item.strategy.Back? || step.item.strategy.Default?
  }

  lemma FinishKeepsOrder<T>(s: System<T>, w: Waiter, item: Option<Item<T>>, r: (State<T>, Outcome<T>),
    signals: bool, signalled: Option<Waiter>)
    requires InOrder(s) && Moved(s.q, r, item)
    requires r.1.Enqueued? ==> r.0.contents == s.q.contents + [item.value.x]
    ensures InOrder(Finish(s, w, item, r, signals, signalled))
  {
    if r.1.Enqueued? {
      assert s.left + (s.q.contents + [item.value.x]) == s.left + s.q.contents + [item.value.x];
    }
    if r.1.Dequeued? {
      assert s.left + ([r.1.x] + r.0.contents) == s.left + [r.1.x] + r.0.contents;
    }
  }

  lemma AddedAtBack<T>(q: State<T>, item: Item<T>)
    requires SizeOk(q) && Drawable(item) && (item.strategy.Back? || item.strategy.Default?)
    ensures Added(q, item).contents == q.contents + [item.x]
  {}

  /** If every element is put at the back, the queue is first in, first out. */
  lemma StepKeepsOrder<T>(s: System<T>, step: Step<T>)
    requires SizeOk(s.q) && Enabled(s, step) && InOrder(s) && PutsBack(step)
    ensures InOrder(Next(s, step))
  {
    match step {
      case CallEnqueue(w, item, zeroWait, signalled) =>
        var r := EnqueueSection(s.q, item, zeroWait);
        EnqueueMoves(s.q, item, zeroWait);
        AddedAtBack(s.q, item);
        FinishKeepsOrder(s, w, Some(item), r, r.1.Enqueued?, signalled);
      case CallDequeue(w, zeroWait, signalled) =>
        var r := DequeueSection(s.q, zeroWait);
        DequeueMoves(s.q, zeroWait);
        FinishKeepsOrder(s, w, None, r, r.1.Dequeued?, signalled);
      case Resume(w, item, signalled) =>
        ResumeMoves(s.q, w.producer, item);
        AddedAtBack(s.q.(waiting := s.q.waiting - 1), item);
        FinishKeepsOrder(Resumed(s, w), w, Some(item), ResumeSection(s.q, w.producer, item),
          CanProceed(s.q, w.producer), signalled);
      case _ =>
    }
    hide Finish, Moved, Waiters, CanSignal, EnqueueSection, DequeueSection, ResumeSection, CanProceed;
  }

  lemma LeavesSleep(sleeping: set<Waiter>, woken: set<Waiter>, expired: set<Waiter>, n: int, w: Waiter)
    requires Counted(sleeping, woken, expired, n) && w in sleeping
    ensures Counted(sleeping - {w}, woken + {w}, expired, n)
    ensures Counted(sleeping - {w}, woken, expired + {w}, n)
  {}

  lemma LeavesWoken(sleeping: set<Waiter>, woken: set<Waiter>, expired: set<Waiter>, n: int, w: Waiter)
    requires Counted(sleeping, woken, expired, n) && w in woken
    ensures Counted(sleeping, woken - {w}, expired, n - 1)
  {}

  lemma LeavesExpired(sleeping: set<Waiter>, woken: set<Waiter>, expired: set<Waiter>, n: int, w: Waiter)
    requires Counted(sleeping, woken, expired, n) && w in expired
    ensures Counted(sleeping, woken, expired - {w}, n - 1)
  {}

  lemma SignalCounts<T>(s: System<T>, signalled: Option<Waiter>)
    requires WaitersInv(s) && CanSignal(s.sleeping, signalled)
    ensures WaitersInv(Signalled(s, signalled))
  {
    if signalled.Some? {
      LeavesSleep(s.sleeping, s.woken, s.expired, s.q.waiting, signalled.value);
    }
  }

  /** How a section changes the counters: a caller that must wait is counted, a waiter that leaves is not. */
  ghost predicate Counters<T>(q: State<T>, r: (State<T>, Outcome<T>), inside: bool) {
    && r.0.max == q.max && r.0.awaking == q.awaking
    && r.0.waiting == q.waiting + (if r.1.MustWait? then 1 else 0) - (if inside then 1 else 0)
  }

  lemma ProducerCounters<T>(q: State<T>, item: Item<T>, zeroWait: bool)
    requires SizeOk(q) && Drawable(item)
    ensures Counters(q, EnqueueSection(q, item, zeroWait), false)
  {}

  lemma ConsumerCounters<T>(q: State<T>, zeroWait: bool)
    requires SizeOk(q)
    ensures Counters(q, DequeueSection(q, zeroWait), false)
  {}

  lemma ResumeCounters<T>(q: State<T>, producer: bool, item: Item<T>)
    requires SizeOk(q) && Drawable(item)
    ensures Counters(q, ResumeSection(q, producer, item), true)
  {}

  lemma FinishCounts<T>(s: System<T>, w: Waiter, item: Option<Item<T>>, r: (State<T>, Outcome<T>),
    signals: bool, signalled: Option<Waiter>)
    requires w !in Waiters(s) && s.called <= s.woken
    requires Counted(s.sleeping, s.woken, s.expired, r.0.waiting - if r.1.MustWait? then 1 else 0)
    requires signals ==> !r.1.MustWait? && CanSignal(s.sleeping, signalled)
    ensures WaitersInv(Finish(s, w, item, r, signals, signalled))
    ensures var s' := Finish(s, w, item, r, signals, signalled); s'.awakers == s.awakers && s'.q == r.0
  {
    if signals {
      SignalCounts(s.(q := r.0), signalled);
    }
  }

  ghost predicate CountersInv<T>(s: System<T>) {
    WaitersInv(s) && s.q.awaking == |s.awakers|
  }

  lemma CallCounts<T>(s: System<T>, step: Step<T>)
    requires Inv(s) && Enabled(s, step) && (step.CallEnqueue? || step.CallDequeue?)
    ensures CountersInv(Next(s, step))
  {
    if step.CallEnqueue? {
      var r := EnqueueSection(s.q, step.item, step.zeroWait);
      ProducerCounters(s.q, step.item, step.zeroWait);
      FinishCounts(s, step.w, Some(step.item), r, r.1.Enqueued?, step.signalled);
    } else {
      var r := DequeueSection(s.q, step.zeroWait);
      ConsumerCounters(s.q, step.zeroWait);
      FinishCounts(s, step.w, None, r, r.1.Dequeued?, step.signalled);
    }
    hide Finish, Conserved, EnqueueSection, DequeueSection;
  }

  lemma ResumeCounts<T>(s: System<T>, w: Waiter, item: Item<T>, signalled: Option<Waiter>)
    requires Inv(s) && Enabled(s, Resume(w, item, signalled))
    ensures CountersInv(Next(s, Resume(w, item, signalled)))
  {
    var r := ResumeSection(s.q, w.producer, item);
    ResumeCounters(s.q, w.producer, item);
    ResumeSignals(s.q, w.producer, item);
    LeavesWoken(s.sleeping, s.woken, s.expired, s.q.waiting, w);
    FinishCounts(Resumed(s, w), w, Some(item), r, CanProceed(s.q, w.producer), signalled);
    hide Finish, Conserved, ResumeSection, CanProceed;
  }

  lemma MoveCounts<T>(s: System<T>, step: Step<T>)
    requires Inv(s) && Enabled(s, step) && (step.Expire? || step.Spurious? || step.Abandon?)
    ensures CountersInv(Next(s, step))
  {
    if step.Abandon? {
      LeavesExpired(s.sleeping, s.woken, s.expired, s.q.waiting, step.w);
    } else {
      LeavesSleep(s.sleeping, s.woken, s.expired, s.q.waiting, step.w);
    }
    hide Conserved, Counted;
  }

  lemma SignalStepCounts<T>(s: System<T>, step: Step<T>)
    requires Inv(s) && Enabled(s, step) && (step.SetMax? || step.SignalAwake?)
    ensures CountersInv(Next(s, step))
  {
    SignalCounts(if step.SetMax? then s.(q := s.q.(max := step.val)) else s, step.signalled);
    hide Conserved, Counted, CanSignal;
  }

  lemma AwakeStepCounts<T>(s: System<T>, step: Step<T>)
    requires Inv(s) && Enabled(s, step) && (step.EnterAwake? || step.CheckAwake?)
    ensures CountersInv(Next(s, step))
  {
    AwakersCount(s.awakers, step.t);
    hide Conserved, Counted;
  }

  lemma AwakersCount(awakers: set<nat>, t: nat)
    ensures if t in awakers then |awakers - {t}| == |awakers| - 1 else |awakers + {t}| == |awakers| + 1
  {}

  lemma StepCounts<T>(s: System<T>, step: Step<T>)
    requires Inv(s) && Enabled(s, step)
    ensures CountersInv(Next(s, step))
  {
    hide *;
    match step {
      case CallEnqueue(_, _, _, _) => CallCounts(s, step);
      case CallDequeue(_, _, _) => CallCounts(s, step);
      case Resume(w, item, signalled) => ResumeCounts(s, w, item, signalled);
      case Expire(_) => MoveCounts(s, step);
      case Spurious(_) => MoveCounts(s, step);
      case Abandon(_) => MoveCounts(s, step);
      case SetMax(_, _) => SignalStepCounts(s, step);
      case SignalAwake(_, _) => SignalStepCounts(s, step);
      case _ => AwakeStepCounts(s, step);
    }
  }

  /** A resumed waiter signals exactly when it leaves because it can proceed; else it waits again or is refused. */
  lemma ResumeSignals<T>(q: State<T>, producer: bool, item: Item<T>)
    requires SizeOk(q) && Drawable(item)
    ensures CanProceed(q, producer) ==> !ResumeSection(q, producer, item).1.MustWait?
    ensures !CanProceed(q, producer) ==>
      ResumeSection(q, producer, item).1 == if q.awaking > 0 then Refused else MustWait
  {}

  /** Every step of every thread keeps the counters true and the elements conserved. */
  lemma StepKeepsInv<T>(s: System<T>, step: Step<T>)
    requires Inv(s) && Enabled(s, step)
    ensures Inv(Next(s, step))
  {
    StepConserves(s, step);
    StepCounts(s, step);
    hide Conserved, WaitersInv, Enabled, Next;
  }

  // --- Wake-ups -----------------------------------------------------------------------------

  /** Some sleeping waiter could go on. */
  ghost predicate SleeperCanProceed<T>(s: System<T>) {
    exists w :: w in s.sleeping && CanProceed(s.q, w.producer)
  }

  /** A sleeping waiter that could go on sleeps only while a signalled one has not run yet. */
  ghost predicate NoLostWakeup<T>(s: System<T>) {
    SleeperCanProceed(s) ==> s.called != {}
  }

  /** The last signalled waiter cannot go on, and passes no signal on, although some sleeping one could. */
  ghost predicate LosesWakeup<T>(s: System<T>, step: Step<T>) {
    step.Resume? && s.called == {step.w} && !CanProceed(s.q, step.w.producer) && SleeperCanProceed(s)
  }

  lemma SignalWakes<T>(s: System<T>, signalled: Option<Waiter>)
    requires CanSignal(s.sleeping, signalled)
    ensures NoLostWakeup(Signalled(s, signalled))
  {}

  /** A caller that is made to wait cannot go on, and changes nothing that lets a sleeper go on. */
  lemma WaitingCallHarmless<T>(s: System<T>, w: Waiter, waiting: int)
    requires NoLostWakeup(s) && !CanProceed(s.q, w.producer)
    ensures NoLostWakeup(s.(q := s.q.(waiting := waiting), sleeping := s.sleeping + {w}))
  {
    var s' := s.(q := s.q.(waiting := waiting), sleeping := s.sleeping + {w});
    if SleeperCanProceed(s') {
      var v :| v in s'.sleeping && CanProceed(s'.q, v.producer);
      assert v in s.sleeping && CanProceed(s.q, v.producer);
    }
  }

  lemma CallLosesNothing<T>(s: System<T>, step: Step<T>)
    requires SizeOk(s.q) && NoLostWakeup(s) && Enabled(s, step) && (step.CallEnqueue? || step.CallDequeue?)
    ensures NoLostWakeup(Next(s, step))
  {
    var w := step.w;
    var r :=
      if step.CallEnqueue? then EnqueueSection(s.q, step.item, step.zeroWait)
      else DequeueSection(s.q, step.zeroWait);
    var s' := Finish(s, w, if step.CallEnqueue? then Some(step.item) else None, r, false, None);
    if r.1.Enqueued? || r.1.Dequeued? {
      SignalWakes(s', step.signalled);
    } else if r.1.MustWait? {
      WaitingCallHarmless(s, w, s.q.waiting + 1);
    }
    hide CanProceed, NoLostWakeup, Waiters;
  }

  lemma ResumeLosesExactlyWhen<T>(s: System<T>, w: Waiter, item: Item<T>, signalled: Option<Waiter>)
    requires SizeOk(s.q) && NoLostWakeup(s) && Enabled(s, Resume(w, item, signalled)) && w !in s.sleeping
    ensures NoLostWakeup(Next(s, Resume(w, item, signalled))) <==> !LosesWakeup(s, Resume(w, item, signalled))
  {
    var r := ResumeSection(s.q, w.producer, item);
    var s' := Next(s, Resume(w, item, signalled));
    if CanProceed(s.q, w.producer) {
      SignalWakes(Finish(Resumed(s, w), w, Some(item), r, false, None), signalled);
      assert NoLostWakeup(s');
    } else {
      assert s'.q.max == s.q.max && s'.q.size == s.q.size;
      assert forall v :: v in s.sleeping ==>
        v in s'.sleeping && CanProceed(s'.q, v.producer) == CanProceed(s.q, v.producer);
      assert forall v :: v in s'.sleeping ==>
        (v in s.sleeping || v == w) && CanProceed(s'.q, v.producer) == CanProceed(s.q, v.producer);
      assert SleeperCanProceed(s') <==> SleeperCanProceed(s);
      assert s'.called == s.called - {w};
      assert s'.called == {} <==> s.called == {w} || s.called == {};
    }
  }

  /** A step loses a wake-up exactly when LosesWakeup says so. */
  lemma WakeupLostExactlyWhen<T>(s: System<T>, step: Step<T>)
    requires Inv(s) && NoLostWakeup(s) && Enabled(s, step)
    ensures NoLostWakeup(Next(s, step)) <==> !LosesWakeup(s, step)
  {
    match step {
      case CallEnqueue(_, _, _, _) => CallLosesNothing(s, step); hide *;
      case CallDequeue(_, _, _) => CallLosesNothing(s, step); hide *;
      case Resume(w, item, signalled) => ResumeLosesExactlyWhen(s, w, item, signalled); hide *;
      case SetMax(val, signalled) => SignalWakes(s.(q := s.q.(max := val)), signalled);
      case SignalAwake(_, signalled) => SignalWakes(s, signalled);
      case _ =>
        assert Next(s, step).q.max == s.q.max && Next(s, step).q.size == s.q.size;
        assert forall v :: v in Next(s, step).sleeping ==> v in s.sleeping;
    }
  }

  /** All waiters that sleep or were signalled are of one kind. */
  ghost predicate OneKind<T>(s: System<T>) {
    forall v, w :: v in s.sleeping + s.called && w in s.sleeping + s.called ==> v.producer == w.producer
  }

  /** With waiters of one kind, or with max_size 0, no step loses a wake-up. */
  lemma OneKindLosesNothing<T>(s: System<T>, step: Step<T>)
    requires OneKind(s) || s.q.max == 0
    ensures !LosesWakeup(s, step)
  {
    assert step.Resume? && s.called == {step.w} ==> step.w in s.sleeping + s.called;
  }

  // --- Shutdown -----------------------------------------------------------------------------

  /** While max_size is 0 and a waiter sleeps, a signalled one has not run yet. */
  ghost predicate ShutdownChain<T>(s: System<T>) {
    s.q.max == 0 && s.sleeping != {} ==> s.called != {}
  }

  /** Setting max_size to 0 starts the chain, and every waiter that leaves hands the signal on. */
  lemma StepKeepsShutdownChain<T>(s: System<T>, step: Step<T>)
    requires Inv(s) && ShutdownChain(s) && Enabled(s, step)
    ensures ShutdownChain(Next(s, step))
  {
    var s' := Next(s, step);
    if step.SetMax? {
      SignalWakes(s.(q := s.q.(max := step.val)), step.signalled);
    } else if s.q.max == 0 {
      assert NoLostWakeup(s);
      WakeupLostExactlyWhen(s, step);
      OneKindLosesNothing(s, step);
    }
    assert !step.SetMax? ==> s'.q.max == s.q.max by { hide Waiters, NoLostWakeup, Inv, ShutdownChain; }
    hide Next, Enabled, Inv;
    if s'.q.max == 0 && s'.sleeping != {} {
      var w :| w in s'.sleeping;
      assert CanProceed(s'.q, w.producer);
    }
  }

  // --- Draining -----------------------------------------------------------------------------

  /** Somebody is in awake, or the queue was shut down. */
  ghost predicate Draining<T>(s: System<T>) {
    s.q.awaking > 0 || s.q.max == 0
  }

  /** How far the waiters are from having left: a sleeping one needs a signal first. */
  ghost function Remaining<T>(s: System<T>): nat {
    2 * |s.sleeping| + |s.woken| + |s.expired|
  }

  /** A waiter leaves, or a sleeping one is woken or gives up. */
  ghost predicate Progress<T>(s: System<T>, step: Step<T>) {
    || step.Resume? || step.Abandon? || step.Expire? || step.Spurious?
    || (step.SignalAwake? && s.sleeping != {}) || (step.SetMax? && s.sleeping != {})
  }

  lemma SignalRemaining<T>(s: System<T>, signalled: Option<Waiter>)
    requires WaitersInv(s) && CanSignal(s.sleeping, signalled)
    ensures Remaining(Signalled(s, signalled)) == Remaining(s) - (if s.sleeping != {} then 1 else 0)
    ensures Signalled(s, signalled).q == s.q && Signalled(s, signalled).sleeping <= s.sleeping
  {
    if signalled.Some? {
      LeavesSleep(s.sleeping, s.woken, s.expired, s.q.waiting, signalled.value);
      assert |s.sleeping - {signalled.value}| == |s.sleeping| - 1;
    }
  }

  lemma CallWhileDraining<T>(s: System<T>, step: Step<T>)
    requires Inv(s) && Draining(s) && Enabled(s, step) && (step.CallEnqueue? || step.CallDequeue?)
    ensures Next(s, step).sleeping <= s.sleeping && Remaining(Next(s, step)) <= Remaining(s)
    ensures Next(s, step).q.waiting == s.q.waiting
  {
    var r :=
      if step.CallEnqueue? then EnqueueSection(s.q, step.item, step.zeroWait)
      else DequeueSection(s.q, step.zeroWait);
    var s' := Finish(s, step.w, if step.CallEnqueue? then Some(step.item) else None, r, false, None);
    assert !r.1.MustWait? && r.0.waiting == s.q.waiting;
    SignalRemaining(s', step.signalled);
    hide Remaining, WaitersInv, Waiters;
  }

  lemma WaiterOut(a: set<Waiter>, b: set<Waiter>, w: Waiter)
    requires w in a && a !! b
    ensures |a - {w}| == |a| - 1 && |b + {w}| == |b| + 1
  {}

  lemma ResumeWhileDraining<T>(s: System<T>, w: Waiter, item: Item<T>, signalled: Option<Waiter>)
    requires Inv(s) && Draining(s) && Enabled(s, Resume(w, item, signalled))
    ensures var s' := Next(s, Resume(w, item, signalled));
      && s'.sleeping <= s.sleeping && w !in s'.sleeping + s'.woken
      && Remaining(s') < Remaining(s) && s'.q.waiting == s.q.waiting - 1
  {
    var r := ResumeSection(s.q, w.producer, item);
    var s0 := Resumed(s, w);
    var s' := Finish(s0, w, Some(item), r, false, None);
    assert !r.1.MustWait? && r.0.waiting == s.q.waiting - 1;
    LeavesWoken(s.sleeping, s.woken, s.expired, s.q.waiting, w);
    WaiterOut(s.woken, {}, w);
    hide ResumeSection, CanProceed, Conserved;
    SignalRemaining(s', signalled);
    hide Waiters, WaitersInv, CanSignal;
  }

  lemma SignalWhileDraining<T>(s: System<T>, step: Step<T>)
    requires Inv(s) && Enabled(s, step) && (step.SetMax? || step.SignalAwake?)
    ensures var s' := Next(s, step);
      && s'.sleeping <= s.sleeping && s'.q.waiting == s.q.waiting
      && Remaining(s') == Remaining(s) - (if s.sleeping != {} then 1 else 0)
  {
    SignalRemaining(if step.SetMax? then s.(q := s.q.(max := step.val)) else s, step.signalled);
    hide WaitersInv, Conserved, CanSignal;
  }

  lemma LeaveWhileDraining<T>(s: System<T>, step: Step<T>)
    requires Inv(s) && Enabled(s, step) && (step.Expire? || step.Spurious? || step.Abandon?)
    ensures var s' := Next(s, step);
      && s'.sleeping <= s.sleeping && Remaining(s') == Remaining(s) - 1
      && s'.q.waiting == s.q.waiting - (if step.Abandon? then 1 else 0)
  {
    if step.Abandon? {
      WaiterOut(s.expired, s.woken, step.w);
    } else if step.Expire? {
      WaiterOut(s.sleeping, s.expired, step.w);
    } else {
      WaiterOut(s.sleeping, s.woken, step.w);
    }
    hide Conserved;
  }

  lemma AwakeWhileDraining<T>(s: System<T>, step: Step<T>)
    requires SizeOk(s.q) && Enabled(s, step) && (step.EnterAwake? || step.CheckAwake?)
    ensures var s' := Next(s, step);
      s'.sleeping == s.sleeping && Remaining(s') == Remaining(s) && s'.q.waiting == s.q.waiting
  {}

  /**
   * While the queue drains nobody starts to wait or waits again, the distance to the end never grows, and
   * every step of progress shrinks it; a waiter that runs leaves.
   */
  lemma DrainingStep<T>(s: System<T>, step: Step<T>)
    requires Inv(s) && Draining(s) && Enabled(s, step)
    ensures Next(s, step).sleeping <= s.sleeping
    ensures Remaining(Next(s, step)) <= Remaining(s)
    ensures Progress(s, step) ==> Remaining(Next(s, step)) < Remaining(s)
    ensures step.Resume? || step.Abandon? ==> Next(s, step).q.waiting == s.q.waiting - 1
    ensures !(step.Resume? || step.Abandon?) ==> Next(s, step).q.waiting == s.q.waiting
  {
    match step {
      case CallEnqueue(_, _, _, _) => CallWhileDraining(s, step); hide *;
      case CallDequeue(_, _, _) => CallWhileDraining(s, step); hide *;
      case Resume(w, item, signalled) => ResumeWhileDraining(s, w, item, signalled); hide *;
      case SetMax(_, _) => SignalWhileDraining(s, step); hide *;
      case SignalAwake(_, _) => SignalWhileDraining(s, step); hide *;
      case Expire(_) => LeaveWhileDraining(s, step); hide *;
      case Spurious(_) => LeaveWhileDraining(s, step); hide *;
      case Abandon(_) => LeaveWhileDraining(s, step); hide *;
      case _ => AwakeWhileDraining(s, step); hide *;
    }
  }

  /** While somebody waits and the queue drains, some step of progress is possible with the awakers' help alone. */
  lemma DrainingProgresses<T>(s: System<T>, item: Item<T>)
    requires Inv(s) && Draining(s) && ShutdownChain(s) && Waiters(s) != {} && Drawable(item)
    ensures exists step :: Enabled(s, step) && Progress(s, step) && (step.Resume? || step.Abandon? || step.SignalAwake?)
  {
    if s.woken != {} {
      var w :| w in s.woken;
      if s.sleeping == {} {
        assert Enabled(s, Resume(w, item, None)) && Progress(s, Resume(w, item, None));
      } else {
        var v :| v in s.sleeping;
        assert Enabled(s, Resume(w, item, Some(v))) && Progress(s, Resume(w, item, Some(v)));
      }
    } else if s.expired != {} {
      var w :| w in s.expired;
      assert Enabled(s, Abandon(w)) && Progress(s, Abandon(w));
    } else {
      var w :| w in s.sleeping;
      assert s.awakers != {};
      var t :| t in s.awakers;
      assert Enabled(s, SignalAwake(t, Some(w))) && Progress(s, SignalAwake(t, Some(w)));
    }
  }

  lemma AwakersStay<T>(s: System<T>, step: Step<T>)
    requires SizeOk(s.q) && Enabled(s, step)
    ensures step.CheckAwake? || s.awakers <= Next(s, step).awakers
  {
    hide CanProceed, EnqueueSection, DequeueSection, ResumeSection, CanSignal, Waiters;
  }

  lemma NobodyLeft(sleeping: set<Waiter>, woken: set<Waiter>, expired: set<Waiter>)
    requires Counted(sleeping, woken, expired, 0)
    ensures sleeping + woken + expired == {}
  {
    assert |sleeping| == 0 && |woken| == 0 && |expired| == 0;
  }

  /** awake leaves its loop only after it has seen that nobody waits. */
  lemma AwakeLeavesWhenDrained<T>(s: System<T>, step: Step<T>, t: nat)
    requires Inv(s) && Enabled(s, step) && t in s.awakers && t !in Next(s, step).awakers
    ensures step == CheckAwake(t) && s.q.waiting == 0 && Waiters(s) == {}
  {
    AwakersStay(s, step);
    assert step.CheckAwake? && s.q.waiting == 0;
    NobodyLeft(s.sleeping, s.woken, s.expired);
    hide Counted, Conserved;
  }

  // --- Runs ---------------------------------------------------------------------------------

  ghost predicate Initial<T>(s: System<T>) {
    && s.q.contents == [] && s.q.size == 0 && s.q.waiting == 0 && s.q.awaking == 0
    && s.sleeping == s.woken == s.called == s.expired == {} && s.awakers == {} && s.entered == s.left == []
  }

  /** The states of a run and the steps between them. */
  ghost predicate Run<T>(states: seq<System<T>>, steps: seq<Step<T>>) {
    && |states| == |steps| + 1
    && forall i :: 0 <= i < |steps| ==> Follows(states[i], steps[i], states[i + 1])
  }

  ghost predicate Follows<T>(s: System<T>, step: Step<T>, s': System<T>) {
    SizeOk(s.q) && Enabled(s, step) && s' == Next(s, step)
  }

  lemma InitialIsSafe<T>(s: System<T>)
    requires Initial(s)
    ensures Inv(s) && ShutdownChain(s)
  {}

  lemma SafeFollows<T>(s: System<T>, step: Step<T>, s': System<T>)
    requires Inv(s) && ShutdownChain(s) && Follows(s, step, s')
    ensures Inv(s') && ShutdownChain(s')
  {
    StepKeepsInv(s, step);
    StepKeepsShutdownChain(s, step);
    hide Inv, ShutdownChain, Next, Enabled;
  }

  /** In every state of every run the counters are true, no element is lost, and the shutdown chain holds. */
  lemma {:induction false} RunIsSafe<T>(states: seq<System<T>>, steps: seq<Step<T>>, i: nat)
    requires Run(states, steps) && Initial(states[0]) && i < |states|
    ensures Inv(states[i]) && ShutdownChain(states[i])
  {
    hide Inv, ShutdownChain, Follows, Initial;
    if i == 0 {
      InitialIsSafe(states[0]);
    } else {
      RunIsSafe(states, steps, i - 1);
      assert Follows(states[i - 1], steps[i - 1], states[i]);
      SafeFollows(states[i - 1], steps[i - 1], states[i]);
    }
  }

  /** A run that puts every element at the back is first in, first out. */
  lemma {:induction false} RunIsFifo<T>(states: seq<System<T>>, steps: seq<Step<T>>, i: nat)
    requires Run(states, steps) && Initial(states[0]) && i < |states|
    requires forall j :: 0 <= j < |steps| ==> PutsBack(steps[j])
    ensures states[i].left <= states[i].entered
    ensures InOrder(states[i])
  {
    if i > 0 {
      RunIsFifo(states, steps, i - 1);
      assert Follows(states[i - 1], steps[i - 1], states[i]);
      StepKeepsOrder(states[i - 1], steps[i - 1]);
      hide Next, Enabled;
    }
  }

  /** A run whose waiters are of one kind in every state, except after a shutdown, loses no wake-up. */
  lemma {:induction false} RunLosesNoWakeup<T>(states: seq<System<T>>, steps: seq<Step<T>>, i: nat)
    requires Run(states, steps) && Initial(states[0]) && i < |states|
    requires forall j :: 0 <= j < |states| ==> OneKind(states[j]) || states[j].q.max == 0
    ensures NoLostWakeup(states[i])
  {
    if i > 0 {
      RunLosesNoWakeup(states, steps, i - 1);
      RunIsSafe(states, steps, i - 1);
      assert Follows(states[i - 1], steps[i - 1], states[i]);
      WakeupLostExactlyWhen(states[i - 1], steps[i - 1]);
      OneKindLosesNothing(states[i - 1], steps[i - 1]);
      hide Next, Enabled, NoLostWakeup, LosesWakeup, Inv, OneKind;
    }
  }

  /** The steps of progress among the first n steps. */
  ghost function ProgressCount<T>(states: seq<System<T>>, steps: seq<Step<T>>, n: nat): nat
    requires n <= |steps| < |states|
  {
    if n == 0 then 0
    else ProgressCount(states, steps, n - 1) + if Progress(states[n - 1], steps[n - 1]) then 1 else 0
  }

  lemma DrainingFollows<T>(s: System<T>, step: Step<T>, s': System<T>)
    requires Inv(s) && Draining(s) && Follows(s, step, s')
    ensures Inv(s') && (if Progress(s, step) then 1 else 0) + Remaining(s') <= Remaining(s)
  {
    StepKeepsInv(s, step);
    DrainingStep(s, step);
    hide Next, Enabled, Remaining, Inv, Progress, Draining;
  }

  /**
   * While the queue drains, a run makes at most as many steps of progress as its first state is away from
   * having no waiter, whatever else happens in between.
   */
  lemma {:induction false} DrainIsBounded<T>(states: seq<System<T>>, steps: seq<Step<T>>, n: nat)
    requires Run(states, steps) && n <= |steps| && Inv(states[0])
    requires forall j :: 0 <= j < |states| ==> Draining(states[j])
    ensures Inv(states[n])
    ensures ProgressCount(states, steps, n) + Remaining(states[n]) <= Remaining(states[0])
  {
    hide Remaining, Inv, Progress, Draining, Follows;
    if n > 0 {
      DrainIsBounded(states, steps, n - 1);
      assert Follows(states[n - 1], steps[n - 1], states[n]);
      DrainingFollows(states[n - 1], steps[n - 1], states[n]);
    }
  }

  // --- A lost wake-up -----------------------------------------------------------------------

  // Two consumers and a producer wait together; see MixedWaitersLoseWakeup.

  const C1 := Waiter(1, false)
  const C2 := Waiter(2, false)
  const P1 := Waiter(3, true)
  const P2 := Waiter(4, true)
  const ITEM: Item<int> := Item(7, Back, 0)

  ghost function Lost(contents: seq<int>, waiting: nat, sleeping: set<Waiter>, woken: set<Waiter>,
    entered: seq<int>, left: seq<int>): System<int>
  {
    System(State(1, contents, |contents|, waiting, 0), sleeping, woken, woken, {}, {}, entered, left)
  }

  lemma BothConsumersSleep()
    ensures Follows(Lost([], 0, {}, {}, [], []), CallDequeue(C1, false, None), Lost([], 1, {C1}, {}, [], []))
    ensures Follows(Lost([], 1, {C1}, {}, [], []), CallDequeue(C2, false, Some(C1)), Lost([], 2, {C1, C2}, {}, [], []))
  {}

  lemma OneConsumerIsWoken()
    ensures Follows(Lost([], 2, {C1, C2}, {}, [], []), CallEnqueue(P1, ITEM, false, Some(C1)),
                    Lost([7], 2, {C2}, {C1}, [7], []))
  {
    var s := Lost([], 2, {C1, C2}, {}, [], []);
    assert s.sleeping - {C1} == {C2};
  }

  lemma ProducerSleeps()
    ensures Follows(Lost([7], 2, {C2}, {C1}, [7], []), CallEnqueue(P2, ITEM, false, Some(C2)),
                    Lost([7], 3, {C2, P2}, {C1}, [7], []))
  {}

  lemma WrongWaiterIsWoken()
    ensures Follows(Lost([7], 3, {C2, P2}, {C1}, [7], []), Resume(C1, ITEM, Some(C2)),
                    Lost([], 2, {P2}, {C2}, [7], [7]))
  {
    assert {C2, P2} - {C2} == {P2} && {C1} - {C1} + {C2} == {C2};
  }

  lemma WrongWaiterSleepsAgain()
    ensures Follows(Lost([], 2, {P2}, {C2}, [7], [7]), Resume(C2, ITEM, Some(P2)),
                    Lost([], 2, {P2, C2}, {}, [7], [7]))
  {}

  lemma LostInTheEnd()
    ensures Initial(Lost([], 0, {}, {}, [], [])) && !NoLostWakeup(Lost([], 2, {P2, C2}, {}, [7], [7]))
  {
    var s := Lost([], 2, {P2, C2}, {}, [7], [7]);
    assert P2 in s.sleeping && CanProceed(s.q, P2.producer);
  }

  /**
   * With producers and consumers waiting together a wake-up can be lost: the signal of a consumer that
   * has just made room goes to another consumer, who finds nothing and sleeps again.
   */
  lemma MixedWaitersLoseWakeup() returns (states: seq<System<int>>, steps: seq<Step<int>>)
    ensures Run(states, steps) && Initial(states[0]) && !NoLostWakeup(states[|steps|])
  {
    hide Follows, Lost, NoLostWakeup, Initial;
    LostInTheEnd();
    states, steps := [Lost([], 0, {}, {}, [], [])], [];
    BothConsumersSleep();
    states, steps := Longer(states, steps, CallDequeue(C1, false, None), Lost([], 1, {C1}, {}, [], []));
    states, steps := Longer(states, steps, CallDequeue(C2, false, Some(C1)), Lost([], 2, {C1, C2}, {}, [], []));
    OneConsumerIsWoken();
    states, steps :=
      Longer(states, steps, CallEnqueue(P1, ITEM, false, Some(C1)), Lost([7], 2, {C2}, {C1}, [7], []));
    ProducerSleeps();
    states, steps :=
      Longer(states, steps, CallEnqueue(P2, ITEM, false, Some(C2)), Lost([7], 3, {C2, P2}, {C1}, [7], []));
    WrongWaiterIsWoken();
    states, steps := Longer(states, steps, Resume(C1, ITEM, Some(C2)), Lost([], 2, {P2}, {C2}, [7], [7]));
    WrongWaiterSleepsAgain();
    states, steps := Longer(states, steps, Resume(C2, ITEM, Some(P2)), Lost([], 2, {P2, C2}, {}, [7], [7]));
  }

  lemma Longer<T>(states: seq<System<T>>, steps: seq<Step<T>>, step: Step<T>, s': System<T>)
    returns (states': seq<System<T>>, steps': seq<Step<T>>)
    requires Run(states, steps) && Follows(states[|steps|], step, s')
    ensures Run(states', steps') && states'[0] == states[0] && states'[|steps'|] == s'
  {
    hide Follows;
    states', steps' := states + [s'], steps + [step];
  }

  // --- What the operations come to ----------------------------------------------------------

  /** The contents with an element in its place: at the back, at the front, or where the random number says. */
  ghost predicate Placed<T>(before: seq<T>, after: seq<T>, item: Item<T>) {
    match item.strategy
    case Front => after == [item.x] + before
    case Random =>
      var i := item.random * |before| / 0x8000_0000;
      0 <= i <= |before| && after == before[..i] + [item.x] + before[i..]
    case _ => after == before + [item.x]
  }

  /** With room an element enters at once and somebody is signalled; else the producer waits, or is refused. */
  lemma EnqueueComesTo<T>(s: System<T>, w: Waiter, item: Item<T>, zeroWait: bool, signalled: Option<Waiter>)
    requires Inv(s) && Enabled(s, CallEnqueue(w, item, zeroWait, signalled))
    ensures var s' := Next(s, CallEnqueue(w, item, zeroWait, signalled));
      if |s.q.contents| < s.q.max then
        && s'.entered == s.entered + [item.x] && Placed(s.q.contents, s'.q.contents, item) && w !in Waiters(s')
        && (signalled.Some? ==> signalled.value in s'.called)
      else if s.q.max != 0 && !zeroWait && s.q.awaking == 0 then
        s' == s.(sleeping := s.sleeping + {w}, q := s.q.(waiting := s.q.waiting + 1))
      else s' == s
  {
    EnqueueEnds(s.q, item, zeroWait);
    FinishComesTo(s, w, Some(item), EnqueueSection(s.q, item, zeroWait), signalled);
    hide EnqueueSection, Finish, Inv, Placed, Waiters;
  }

  /** A first section ends with the operation done, with a wait, or with nothing changed. */
  lemma EnqueueEnds<T>(q: State<T>, item: Item<T>, zeroWait: bool)
    requires SizeOk(q) && Drawable(item)
    ensures var r := EnqueueSection(q, item, zeroWait);
      if |q.contents| < q.max then r.1.Enqueued? && Placed(q.contents, r.0.contents, item)
      else if q.max != 0 && !zeroWait && q.awaking <= 0 then r == (q.(waiting := q.waiting + 1), MustWait)
      else r == (q, Refused)
  {
    PlacedWhereAsked(q, item);
    hide Added, Placed;
  }

  lemma FinishComesTo<T>(
    s: System<T>, w: Waiter, item: Option<Item<T>>, r: (State<T>, Outcome<T>), signalled: Option<Waiter>)
    requires w !in Waiters(s) && CanSignal(s.sleeping, signalled)
    ensures var done := r.1.Enqueued? || r.1.Dequeued?;
      var s' := Finish(s, w, item, r, done, signalled);
      && s'.q == r.0
      && (done ==> w !in Waiters(s') && (signalled.Some? ==> signalled.value in s'.called))
      && s'.entered == (if r.1.Enqueued? && item.Some? then s.entered + [item.value.x] else s.entered)
      && s'.left == (if r.1.Dequeued? then s.left + [r.1.x] else s.left)
      && (r.1.MustWait? ==> s' == s.(q := r.0, sleeping := s.sleeping + {w}))
      && (r.1.Refused? && r.0 == s.q ==> s' == s)
  {
  }

  lemma PlacedWhereAsked<T>(q: State<T>, item: Item<T>)
    requires SizeOk(q) && Drawable(item)
    ensures Placed(q.contents, Added(q, item).contents, item)
  {
    RandomBelow(|q.contents|, item.random);
    assert q.contents[..0] == [] && q.contents[0..] == q.contents == q.contents[..|q.contents|];
    assert q.contents[|q.contents|..] == [];
  }

  /** A consumer gets the first element if there is one, and somebody is signalled; else it waits, or gets nothing. */
  lemma DequeueComesTo<T>(s: System<T>, w: Waiter, zeroWait: bool, signalled: Option<Waiter>)
    requires Inv(s) && Enabled(s, CallDequeue(w, zeroWait, signalled))
    ensures var s' := Next(s, CallDequeue(w, zeroWait, signalled));
      if s.q.contents != [] then
        && s'.left == s.left + [s.q.contents[0]] && s'.q.contents == s.q.contents[1..] && w !in Waiters(s')
        && (signalled.Some? ==> signalled.value in s'.called)
      else if s.q.max != 0 && !zeroWait && s.q.awaking == 0 then
        s' == s.(sleeping := s.sleeping + {w}, q := s.q.(waiting := s.q.waiting + 1))
      else s' == s
  {
    DequeueEnds(s.q, zeroWait);
    FinishComesTo(s, w, None, DequeueSection(s.q, zeroWait), signalled);
    hide DequeueSection, Finish, Inv, Waiters;
  }

  lemma DequeueEnds<T>(q: State<T>, zeroWait: bool)
    requires SizeOk(q)
    ensures var r := DequeueSection(q, zeroWait);
      if q.contents != [] then r.1 == Dequeued(q.contents[0]) && r.0.contents == q.contents[1..]
      else if q.max != 0 && !zeroWait && q.awaking <= 0 then r == (q.(waiting := q.waiting + 1), MustWait)
      else r == (q, Refused)
  {
  }

  /**
   * A resumed waiter does its operation if it can, waits again if it cannot, and leaves without it if the queue is
   * shut down or awake() runs.  It signals the next one unless it waits again or leaves because of awake().
   */
  lemma ResumeComesTo<T>(s: System<T>, w: Waiter, item: Item<T>, signalled: Option<Waiter>)
    requires Inv(s) && Enabled(s, Resume(w, item, signalled))
    ensures var s' := Next(s, Resume(w, item, signalled));
      var full, empty := |s.q.contents| >= s.q.max, s.q.contents == [];
      var stuck := s.q.max != 0 && if w.producer then full else empty;
      && (w in s'.sleeping <==> stuck && s.q.awaking == 0)
      && (!stuck && signalled.Some? ==> signalled.value in s'.called)
      && (stuck ==> s'.called == s.called - {w} && s'.q.contents == s.q.contents)
      && (w.producer && !full ==> s'.entered == s.entered + [item.x] && Placed(s.q.contents, s'.q.contents, item))
      && (!w.producer && !empty ==> s'.left == s.left + [s.q.contents[0]] && s'.q.contents == s.q.contents[1..])
      && ((if w.producer then full else empty) ==>
           s'.entered == s.entered && s'.left == s.left && s'.q.contents == s.q.contents)
      && (w !in s'.sleeping ==> w !in Waiters(s') && s'.q.waiting == s.q.waiting - 1)
  {
    PlacedWhereAsked(s.q.(waiting := s.q.waiting - 1), item);
    hide Added, Conserved;
  }
}
