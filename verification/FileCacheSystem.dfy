/**
 * Any number of threads on one file cache: get, modified, erase and clear of El/Cache/ObjectCache.hpp with
 * ObjectHolder::load of El/Cache/ObjectCache.cpp, interleaved at every lock operation and every look at a file.
 *
 * There is one read-write lock for the container and one mutex for each holder.  A pointer to a holder
 * is copied, and dropped from the container, under the mutex of that holder too, because its count is.
 */
module FileCacheSystem {

  import opened Wrappers
  import opened ObjectCache

  type Thread = nat

  /** What the lookup is for: get, or modified. */
  datatype Purpose = ForGet | ForModified(force: bool)

  predicate Forced(why: Purpose) {
    why.ForModified? && why.force
  }

  /** Where a thread is; holders are known by their places in the order of creation. */
  datatype Pc =
    | Idle
    | Entering(f: Name, now: Time)
    | SweepWanted(f: Name, now: Time)
    | Sweeping(f: Name, now: Time, todo: set<Name>)
    | Looking(why: Purpose, f: Name, now: Time)
    | Reading(why: Purpose, f: Name, now: Time)
    | Reviewing(why: Purpose, f: Name, now: Time, h: nat)
    | Comparing(why: Purpose, f: Name, now: Time, h: nat)
    | Compared(f: Name, now: Time, h: nat, seen: Option<File>)
    | Fetching(why: Purpose, f: Name, now: Time, h: nat, seen: Option<File>)
    | Marking(now: Time, h: nat)
    | Wanting(f: Name, now: Time)
    | Writing(f: Name, now: Time)
    | Recomparing(f: Name, now: Time, h: nat)
    | Recompared(f: Name, now: Time, h: nat, seen: Option<File>)
    | Created(f: Name, h: nat, number: nat)
    | HandingOver(f: Name, h: nat, number: nat)
    | Opening(f: Name, h: nat, number: nat, start: Time)
    | Stating(f: Name, h: nat, number: nat, start: Time, open: File)
    | Filling(f: Name, h: nat, number: nat, start: Time, open: File, stated: File)
    | EraseWanted(f: Name)
    | Erasing(f: Name)
    | ClearWanted
    | Clearing

  /** loads tells of each loaded holder the versions that its load opened and looked at. */
  datatype System = System(
    period: Time, timeout: Time, objects: map<Name, nat>, number: nat, lastCheck: Time,
    holders: seq<Holder>, files: map<Name, File>, threads: map<Thread, Pc>, loads: map<nat, (File, File)>)

  datatype Call = Get(f: Name) | Modified(f: Name, force: bool) | Erase(f: Name) | Clear

  /** A thread moves, with the choices its step may need; or a file is replaced as a whole, or removed. */
  datatype Step =
    | Run(t: Thread, call: Call, clock: Time, name: Name, intact: bool)
    | Replace(f: Name, file: Option<File>)

  // --- Locks --------------------------------------------------------------------------------

  predicate Reads(pc: Pc) {
    pc.Reading? || pc.Reviewing? || pc.Comparing? || pc.Compared?
  }

  predicate Writes(pc: Pc) {
    || pc.Sweeping? || pc.Writing? || pc.Recomparing? || pc.Recompared?
    || pc.Created? || pc.HandingOver? || pc.Erasing? || pc.Clearing?
  }

  /** The thread is in load, with the mutex. */
  predicate Loads(pc: Pc) {
    pc.HandingOver? || pc.Opening? || pc.Stating? || pc.Filling?
  }

  predicate Builds(pc: Pc) {
    pc.Created? || Loads(pc)
  }

  /** The thread has taken a pointer to a holder it did not make. */
  predicate Knows(pc: Pc) {
    || pc.Reviewing? || pc.Comparing? || pc.Compared? || pc.Fetching?
    || pc.Marking? || pc.Recomparing? || pc.Recompared?
  }

  ghost predicate CanRead(s: System) {
    forall t :: t in s.threads ==> !Writes(s.threads[t])
  }

  ghost predicate CanWrite(s: System) {
    forall t :: t in s.threads ==> !Writes(s.threads[t]) && !Reads(s.threads[t])
  }

  ghost predicate Free(s: System, h: nat) {
    forall t :: t in s.threads ==> !(Loads(s.threads[t]) && s.threads[t].h == h)
  }

  ghost predicate FreeUnder(s: System, f: Name) {
    f in s.objects ==> Free(s, s.objects[f])
  }

  /** The locks that the next step of a thread takes, or needs, are there. */
  ghost predicate Ready(s: System, pc: Pc, name: Name) {
    match pc
    case Entering(_, _) => s.timeout != 0 ==> CanRead(s)
    case SweepWanted(_, _) => CanWrite(s)
    case Sweeping(_, _, todo) => todo == {} || (name in todo && FreeUnder(s, name))
    case Looking(_, _, _) => CanRead(s)
    case Reading(_, f, _) => FreeUnder(s, f)
    case Reviewing(why, _, _, h) => Forced(why) || s.period == 0 || Free(s, h)
    case Comparing(_, _, _, h) => Free(s, h)
    case Compared(_, _, h, _) => Free(s, h)
    case Fetching(_, _, _, h, _) => Free(s, h)
    case Marking(_, h) => Free(s, h)
    case Wanting(_, _) => CanWrite(s)
    case Writing(f, _) => FreeUnder(s, f)
    case Recomparing(_, _, h) => Free(s, h)
    case Recompared(_, _, h, _) => Free(s, h)
    case Created(_, h, _) => Free(s, h)
    case EraseWanted(_) => CanWrite(s)
    case Erasing(f) => FreeUnder(s, f)
    case ClearWanted => CanWrite(s)
    case Clearing => s.objects == map[] || (name in s.objects && FreeUnder(s, name))
    case _ => true
  }

  ghost predicate Enabled(s: System, step: Step) {
    step.Run? ==> step.t in s.threads && Ready(s, s.threads[step.t], step.name)
  }

  // --- Steps --------------------------------------------------------------------------------

  function OnDisk(s: System, f: Name): Option<File> {
    if f in s.files then Some(s.files[f]) else None
  }

  function Begin(call: Call, now: Time): Pc {
    match call
    case Get(f) => if f == "" then Idle else Entering(f, now)
    case Modified(f, force) => if f == "" then Idle else Looking(ForModified(force), f, now)
    case Erase(f) => if f == "" then Idle else EraseWanted(f)
    case Clear => ClearWanted
  }

  function At(s: System, h: nat): Holder {
    if h < |s.holders| then s.holders[h] else NEW_HOLDER
  }

  /** The answer of is_modified to a thread that asks. */
  function Answer(s: System, pc: Pc): Answer
    requires pc.Comparing? || pc.Recomparing?
  {
    IsModified(At(s, pc.h), OnDisk(s, pc.f))
  }

  /** The second look failed too: a new holder replaces the old one, or joins the container. */
  predicate Creates(s: System, pc: Pc) {
    (pc.Writing? && pc.f !in s.objects) || (pc.Recomparing? && Answer(s, pc).Yes?)
  }

  /** The load is over, and the mutex is released. */
  predicate Ends(s: System, pc: Pc) {
    pc.Filling? || ((pc.Opening? || pc.Stating?) && pc.f !in s.files)
  }

  predicate Shortcut(s: System, pc: Pc)
    requires pc.Reviewing?
  {
    !Forced(pc.why) && WithinReview(At(s, pc.h).reviewed, s.period, pc.now)
  }

  predicate SweepsOut(s: System, pc: Pc, name: Name)
    requires pc.Sweeping?
  {
    name in pc.todo && name in s.objects && name != pc.f && Expired(At(s, s.objects[name]).accessed, s.timeout, pc.now)
  }

  function NextObjects(s: System, pc: Pc, name: Name): map<Name, nat> {
    if Creates(s, pc) then s.objects[pc.f := |s.holders|]
    else if pc.Erasing? then s.objects - {pc.f}
    else if pc.Clearing? || (pc.Sweeping? && SweepsOut(s, pc, name)) then s.objects - {name}
    else s.objects
  }

  /** The holder that the thread knows or builds, after its step. */
  function Touched(s: System, pc: Pc, holder: Holder, clock: Time, intact: bool): Holder {
    if pc.Compared? || pc.Recompared? || pc.Marking? then holder.(reviewed := pc.now)
    else if pc.Fetching? && Fetched(holder).Got? then holder.(accessed := clock)
    else if Ends(s, pc) then
      AfterLoad(holder, pc.number, if pc.Opening? then None else Some(pc.open),
        if pc.Filling? then Some(pc.stated) else None, intact, pc.start, clock)
    else holder
  }

  function NextHolders(s: System, pc: Pc, clock: Time, intact: bool): seq<Holder> {
    if Creates(s, pc) then s.holders + [NEW_HOLDER]
    else if (Knows(pc) || Builds(pc)) && pc.h < |s.holders| then
      s.holders[pc.h := Touched(s, pc, s.holders[pc.h], clock, intact)]
    else s.holders
  }

  /** The lookup missed: get goes on to the write lock, modified answers. */
  function Missed(why: Purpose, f: Name, now: Time): Pc {
    if why.ForGet? then Wanting(f, now) else Idle
  }

  /** The lookup found a current object: get marks it under the lock, modified after fetching it. */
  function Found(s: System, why: Purpose, f: Name, now: Time, h: nat): Pc {
    if why.ForGet? then Compared(f, now, h, OnDisk(s, f)) else Fetching(why, f, now, h, OnDisk(s, f))
  }

  function NextPc(s: System, pc: Pc, call: Call, clock: Time, name: Name): Pc {
    match pc
    case Idle => Begin(call, clock)
    case Entering(f, now) =>
      if s.timeout != 0 && Expired(s.lastCheck, s.timeout, now) then SweepWanted(f, now) else Looking(ForGet, f, now)
    case SweepWanted(f, now) =>
      if Expired(s.lastCheck, s.timeout, now) then Sweeping(f, now, s.objects.Keys) else Looking(ForGet, f, now)
    case Sweeping(f, now, todo) => if todo == {} then Looking(ForGet, f, now) else Sweeping(f, now, todo - {name})
    case Looking(why, f, now) => Reading(why, f, now)
    case Reading(why, f, now) =>
      if f in s.objects then Reviewing(why, f, now, s.objects[f]) else Missed(why, f, now)
    case Reviewing(why, f, now, h) =>
      if !Shortcut(s, pc) then Comparing(why, f, now, h)
      else if why.ForGet? then Fetching(why, f, now, h, None)
      else Idle
    case Comparing(why, f, now, h) =>
      (match Answer(s, pc)
       case No => Found(s, why, f, now, h)
       case Yes => Missed(why, f, now)
       case UnexpectedState => Idle)
    case Compared(f, now, h, seen) => Fetching(ForGet, f, now, h, seen)
    case Fetching(why, f, now, h, _) => if why.ForModified? && Fetched(At(s, h)).Got? then Marking(now, h) else Idle
    case Marking(_, _) => Idle
    case Wanting(f, now) => Writing(f, now)
    case Writing(f, now) =>
      if f in s.objects then Recomparing(f, now, s.objects[f]) else Created(f, |s.holders|, s.number)
    case Recomparing(f, now, h) =>
      (match Answer(s, pc)
       case No => Recompared(f, now, h, OnDisk(s, f))
       case Yes => Created(f, |s.holders|, s.number)
       case UnexpectedState => Idle)
    case Recompared(f, now, h, seen) => Fetching(ForGet, f, now, h, seen)
    case Created(f, h, number) => HandingOver(f, h, number)
    case HandingOver(f, h, number) => Opening(f, h, number, clock)
    case Opening(f, h, number, start) => if f in s.files then Stating(f, h, number, start, s.files[f]) else Idle
    case Stating(f, h, number, start, open) =>
      if f in s.files then Filling(f, h, number, start, open, s.files[f]) else Idle
    case Filling(_, _, _, _, _, _) => Idle
    case EraseWanted(f) => Erasing(f)
    case Erasing(_) => Idle
    case ClearWanted => Clearing
    case Clearing => if s.objects == map[] then Idle else Clearing
  }

  function Next(s: System, step: Step): System
    requires step.Run? ==> step.t in s.threads
  {
    match step
    case Run(t, call, clock, name, intact) =>
      var pc := s.threads[t];
      s.(threads := s.threads[t := NextPc(s, pc, call, clock, name)],
         objects := NextObjects(s, pc, name),
         holders := NextHolders(s, pc, clock, intact),
         number := if Creates(s, pc) then s.number + 1 else s.number,
         lastCheck := if pc.Sweeping? && pc.todo == {} then pc.now else s.lastCheck,
         loads := if pc.Filling? && intact then s.loads[pc.h := (pc.open, pc.stated)] else s.loads)
    case Replace(f, file) => s.(files := if file.Some? then s.files[f := file.value] else s.files - {f})
  }

  // --- The invariant ------------------------------------------------------------------------

  /** What is known of two different threads. */
  ghost predicate Compatible(a: Pc, b: Pc) {
    && !(Writes(a) && (Writes(b) || Reads(b)))
    && !(Writes(b) && Reads(a))
    && !(Builds(a) && Builds(b) && a.h == b.h)
  }

  ghost function SeenBy(pc: Pc): Option<File> {
    if pc.Compared? || pc.Fetching? || pc.Recompared? then pc.seen else None
  }

  /** What is known of one thread. */
  ghost predicate Sound(s: System, pc: Pc) {
    && (Knows(pc) || Builds(pc) ==> pc.h < |s.holders|)
    && (Builds(pc) ==> s.holders[pc.h].phase.Loading? && pc.number == pc.h + 1)
    && (Builds(pc) ==> pc.f in s.objects && s.objects[pc.f] == pc.h)
    && (Knows(pc) ==> !s.holders[pc.h].phase.Loading?)
    && (pc.Recomparing? || pc.Recompared? ==> pc.f in s.objects && s.objects[pc.f] == pc.h)
    && (SeenBy(pc).Some? ==> s.holders[pc.h].phase.Loaded? && Matches(s.holders[pc.h], SeenBy(pc).value))
    && (pc.Compared? || pc.Recompared? || (pc.Fetching? && !(pc.why.ForGet? && s.period != 0)) ==> pc.seen.Some?)
  }

  /** What is known of one holder. */
  ghost predicate SoundHolder(s: System, h: nat)
    requires h < |s.holders|
  {
    var holder := s.holders[h];
    && (holder.phase.Loading? ==> exists t :: t in s.threads && Builds(s.threads[t]) && s.threads[t].h == h)
    && (holder.phase.Loaded? ==>
         && h in s.loads && holder.item == Some(NewObject(h + 1, s.loads[h].0.content))
         && Matches(holder, s.loads[h].1))
  }

  ghost predicate Inv(s: System) {
    && s.number == |s.holders| + 1
    && (forall f :: f in s.objects ==> s.objects[f] < |s.holders|)
    && (forall h :: 0 <= h < |s.holders| ==> SoundHolder(s, h))
    && (forall t :: t in s.threads ==> Sound(s, s.threads[t]))
    && (forall t, u :: t in s.threads && u in s.threads && t != u ==> Compatible(s.threads[t], s.threads[u]))
  }

  ghost predicate Init(s: System) {
    && s.objects == map[] && s.number == 1 && s.holders == []
    && forall t :: t in s.threads ==> s.threads[t] == Idle
  }

  // --- What every step keeps ----------------------------------------------------------------

  /** A holder that nobody loads is no longer being built, for anyone who has a container lock. */
  lemma FreeIsSettled(s: System, t: Thread, h: nat)
    requires Inv(s) && h < |s.holders| && Free(s, h)
    requires t in s.threads && (Reads(s.threads[t]) || Writes(s.threads[t])) && !Builds(s.threads[t])
    ensures !s.holders[h].phase.Loading?
  {
    assert SoundHolder(s, h);
    forall u | u in s.threads && Builds(s.threads[u])
      ensures s.threads[u].h != h
    {
      assert t != u && Compatible(s.threads[t], s.threads[u]);
    }
  }

  /** How a thread gets its locks and its holder. */
  lemma PcMoves(s: System, step: Step)
    requires Enabled(s, step) && step.Run?
    ensures var pc, pc' := s.threads[step.t], Next(s, step).threads[step.t];
      && (Writes(pc') ==> Writes(pc) || CanWrite(s))
      && (Reads(pc') ==> Reads(pc) || CanRead(s))
      && (Builds(pc') ==>
           if Creates(s, pc) then pc' == Created(pc.f, |s.holders|, s.number)
           else Builds(pc) && !Ends(s, pc) && pc'.h == pc.h && pc'.f == pc.f && pc'.number == pc.number)
      && (Builds(pc) && !Ends(s, pc) ==> Builds(pc') && pc'.h == pc.h)
      && (Creates(s, pc) ==> Builds(pc') && Writes(pc))
  {
    hide CanRead, CanWrite, Free, FreeUnder, NextObjects, NextHolders, OnDisk, At, IsModified;
  }

  /** What a thread knows when it moves on. */
  lemma PcLearns(s: System, step: Step)
    requires Enabled(s, step) && step.Run?
    ensures var pc, pc' := s.threads[step.t], Next(s, step).threads[step.t];
      && (Knows(pc') ==>
           || (Knows(pc) && pc'.h == pc.h)
           || ((pc.Reading? || pc.Writing?) && pc.f in s.objects && FreeUnder(s, pc.f) && pc'.h == s.objects[pc.f]))
      && (pc'.Recomparing? ==> pc.Writing? && pc'.f == pc.f && pc.f in s.objects && pc'.h == s.objects[pc.f])
      && (pc'.Recompared? ==> pc.Recomparing? && pc'.f == pc.f && pc'.h == pc.h)
      && (SeenBy(pc').Some? ==> Knows(pc) && pc'.h == pc.h && !pc.Marking? && pc'.f == pc.f)
      && (SeenBy(pc').Some? ==>
           if pc.Comparing? || pc.Recomparing? then Answer(s, pc).No? && SeenBy(pc') == OnDisk(s, pc.f)
           else SeenBy(pc') == SeenBy(pc))
      && (pc'.Compared? || pc'.Recompared? ==> SeenBy(pc') == OnDisk(s, pc.f))
      && (pc'.Fetching? ==>
           if pc.Reviewing? then pc'.why.ForGet? && s.period != 0
           else pc'.seen == if pc.Comparing? then OnDisk(s, pc.f) else SeenBy(pc))
  {
    hide CanRead, CanWrite, Free, NextObjects, NextHolders, OnDisk, At, IsModified, Ends;
  }

  /** What a step of t can do to a holder: finish it, if t builds it, or set a time. */
  ghost predicate HolderMoves(before: Holder, after: Holder, built: bool) {
    if before.phase.Loading? then built || after == before
    else
      && after.phase == before.phase && after.item == before.item
      && after.mtime == before.mtime && after.size == before.size
  }

  lemma HolderStep(s: System, step: Step, h: nat)
    requires Inv(s) && Enabled(s, step) && step.Run? && h < |s.holders|
    ensures var s' := Next(s, step);
      && |s.holders| <= |s'.holders|
      && HolderMoves(s.holders[h], s'.holders[h], Builds(s.threads[step.t]) && s.threads[step.t].h == h)
  {
    assert Sound(s, s.threads[step.t]);
    hide NextPc, NextObjects, Inv, Enabled, Answer, IsModified;
  }

  /** Only a thread with the write lock changes the container, and it takes no holder out that is being built. */
  lemma ContainerStep(s: System, step: Step, f: Name)
    requires Inv(s) && Enabled(s, step) && step.Run?
    ensures var s' := Next(s, step);
      && (f in s'.objects ==> s'.objects[f] < |s'.holders|)
      && (f in s.objects && !(f in s'.objects && s'.objects[f] == s.objects[f]) ==>
           s.objects[f] < |s.holders| && Writes(s.threads[step.t]) && !s.holders[s.objects[f]].phase.Loading?)
  {
    var pc := s.threads[step.t];
    assert Sound(s, pc);
    if f in s.objects {
      var h := s.objects[f];
      if Free(s, h) && Writes(pc) && !Builds(pc) {
        FreeIsSettled(s, step.t, h);
      }
    }
    hide NextPc, Touched, Answer, IsModified, CanRead, CanWrite, Free, SoundHolder, Compatible;
  }

  /** The threads that stand still keep what they know. */
  lemma OthersStaySound(s: System, step: Step, u: Thread)
    requires Inv(s) && Enabled(s, step) && step.Run? && u in s.threads && u != step.t
    ensures var s' := Next(s, step); u in s'.threads && s'.threads[u] == s.threads[u] && Sound(s', s.threads[u])
  {
    var pc := s.threads[u];
    assert Sound(s, pc) && Compatible(pc, s.threads[step.t]);
    if Knows(pc) || Builds(pc) {
      HolderStep(s, step, pc.h);
      if !pc.Marking? {
        ContainerStep(s, step, pc.f);
      }
    }
    hide NextPc, NextObjects, NextHolders, Inv, Enabled, Creates;
  }

  lemma MoverStaysSound(s: System, step: Step)
    requires Inv(s) && Enabled(s, step) && step.Run?
    ensures Sound(Next(s, step), Next(s, step).threads[step.t])
  {
    var pc := s.threads[step.t];
    assert Sound(s, pc);
    if (pc.Reading? || pc.Writing?) && pc.f in s.objects && FreeUnder(s, pc.f) {
      FreeIsSettled(s, step.t, s.objects[pc.f]);
    }
    PcLearns(s, step);
    PcMoves(s, step);
    if (Knows(pc) || Builds(pc)) {
      HolderStep(s, step, pc.h);
    }
    hide NextPc, CanRead, CanWrite, Free, FreeUnder, Touched, Enabled;
  }

  lemma MoverStaysCompatible(s: System, step: Step, u: Thread)
    requires Inv(s) && Enabled(s, step) && step.Run? && u in s.threads && u != step.t
    ensures var pc' := Next(s, step).threads[step.t];
      Compatible(pc', s.threads[u]) && Compatible(s.threads[u], pc')
  {
    var pc := s.threads[step.t];
    assert Sound(s, s.threads[u]);
    assert Compatible(pc, s.threads[u]) && Compatible(s.threads[u], pc);
    PcMoves(s, step);
    hide Next, Inv, Enabled, Creates, Ends;
  }

  lemma LoadingStaysBuilt(s: System, step: Step, h: nat)
    requires Inv(s) && Enabled(s, step) && step.Run?
    requires h < |Next(s, step).holders| && Next(s, step).holders[h].phase.Loading?
    ensures var s' := Next(s, step); exists t :: t in s'.threads && Builds(s'.threads[t]) && s'.threads[t].h == h
  {
    var s', pc := Next(s, step), s.threads[step.t];
    assert Sound(s, pc);
    PcMoves(s, step);
    if h < |s.holders| {
      assert SoundHolder(s, h);
      HolderStep(s, step, h);
      hide NextPc, NextObjects, Enabled, Inv, Answer;
      var u :| u in s.threads && Builds(s.threads[u]) && s.threads[u].h == h;
      assert s'.threads[u] == s.threads[u] || u == step.t;
      assert Builds(s'.threads[u]);
    } else {
      hide NextPc, NextObjects, Enabled, Inv, Answer;
      assert Builds(s'.threads[step.t]);
    }
  }

  lemma LoadedStaysSound(s: System, step: Step, h: nat)
    requires Inv(s) && Enabled(s, step) && step.Run?
    requires h < |Next(s, step).holders| && Next(s, step).holders[h].phase.Loaded?
    ensures var s' := Next(s, step);
      && h in s'.loads && s'.holders[h].item == Some(NewObject(h + 1, s'.loads[h].0.content))
      && Matches(s'.holders[h], s'.loads[h].1)
  {
    var pc := s.threads[step.t];
    assert Sound(s, pc);
    assert h < |s.holders| ==> SoundHolder(s, h);
    hide NextPc, NextObjects, Enabled, Inv, Answer, NewObject;
  }

  lemma HolderStaysSound(s: System, step: Step, h: nat)
    requires Inv(s) && Enabled(s, step) && step.Run? && h < |Next(s, step).holders|
    ensures SoundHolder(Next(s, step), h)
  {
    if Next(s, step).holders[h].phase.Loading? {
      LoadingStaysBuilt(s, step, h);
    } else if Next(s, step).holders[h].phase.Loaded? {
      LoadedStaysSound(s, step, h);
    }
    hide Next, Inv, Enabled;
  }

  /** Only one thread moves, and a number is used up with each holder. */
  lemma OneMoves(s: System, step: Step)
    requires step.Run? && step.t in s.threads
    ensures var s' := Next(s, step);
      && s'.threads.Keys == s.threads.Keys
      && (forall u :: u in s.threads && u != step.t ==> s'.threads[u] == s.threads[u])
      && s'.number - s.number == |s'.holders| - |s.holders|
      && s'.period == s.period
  {
    hide NextPc, NextObjects, Creates, Touched;
  }

  lemma StepKeepsInv(s: System, step: Step)
    requires Inv(s) && Enabled(s, step)
    ensures Inv(Next(s, step))
  {
    var s' := Next(s, step);
    if step.Run? {
      OneMoves(s, step);
      MoverStaysSound(s, step);
      hide Next, Sound, SoundHolder, Compatible, Enabled;
      forall h | 0 <= h < |s'.holders| ensures SoundHolder(s', h) {
        HolderStaysSound(s, step, h);
      }
      forall u | u in s.threads && u != step.t
        ensures Sound(s', s'.threads[u])
        ensures Compatible(s'.threads[step.t], s'.threads[u]) && Compatible(s'.threads[u], s'.threads[step.t])
      {
        OthersStaySound(s, step, u);
        MoverStaysCompatible(s, step, u);
      }
      forall f | f in s'.objects ensures s'.objects[f] < |s'.holders| {
        ContainerStep(s, step, f);
      }
    } else {
      FilesDoNotMatter(s, s');
    }
  }

  lemma FilesDoNotMatter(s: System, s': System)
    requires Inv(s) && s' == s.(files := s'.files)
    ensures Inv(s')
  {
    forall h | 0 <= h < |s'.holders| ensures SoundHolder(s', h) {
      assert SoundHolder(s, h);
    }
    forall t | t in s'.threads ensures Sound(s', s'.threads[t]) {
      assert Sound(s, s.threads[t]);
    }
    hide Compatible, Sound, SoundHolder;
  }

  // --- What it means ------------------------------------------------------------------------

  /** The state of a holder under construction is never seen from outside, although its pointer is public. */
  lemma NobodySeesLoading(s: System, step: Step)
    requires Inv(s) && Enabled(s, step) && step.Run?
    ensures var pc := s.threads[step.t];
      && (pc.Comparing? || pc.Recomparing? ==> !Answer(s, pc).UnexpectedState?)
      && (pc.Fetching? ==> !Fetched(At(s, pc.h)).Unexpected?)
      && (pc.Fetching? && pc.seen.Some? ==> Fetched(At(s, pc.h)) == Got(At(s, pc.h).item) && At(s, pc.h).item.Some?)
  {
    assert Sound(s, s.threads[step.t]);
    if s.threads[step.t].Fetching? {
      assert SoundHolder(s, s.threads[step.t].h);
    }
  }

  /** A file is loaded by one thread at a time. */
  lemma OneLoadAtATime(s: System, t: Thread, u: Thread)
    requires Inv(s) && t in s.threads && u in s.threads
    requires Builds(s.threads[t]) && Builds(s.threads[u]) && s.threads[t].f == s.threads[u].f
    ensures t == u
  {
    assert Sound(s, s.threads[t]) && Sound(s, s.threads[u]);
    assert t != u ==> Compatible(s.threads[t], s.threads[u]);
  }

  /** A new object has a higher number than all objects that are loaded or being loaded. */
  lemma NumbersGrow(s: System, step: Step)
    requires Inv(s) && Enabled(s, step) && step.Run? && Creates(s, s.threads[step.t])
    ensures var s' := Next(s, step); s'.threads[step.t] == Created(s.threads[step.t].f, |s.holders|, s.number)
    ensures forall h :: 0 <= h < |s.holders| && s.holders[h].phase.Loaded? ==>
      s.holders[h].item.Some? && s.holders[h].item.value.number < s.number
    ensures forall u :: u in s.threads && Builds(s.threads[u]) ==> s.threads[u].number < s.number
    ensures Next(s, step).number > s.number
  {
    forall h | 0 <= h < |s.holders| && s.holders[h].phase.Loaded?
      ensures s.holders[h].item.Some? && s.holders[h].item.value.number < s.number
    {
      assert SoundHolder(s, h);
    }
    forall u | u in s.threads && Builds(s.threads[u])
      ensures s.threads[u].number < s.number
    {
      assert Sound(s, s.threads[u]);
    }
  }

  ghost predicate Busy(s: System, t: Thread) {
    t in s.threads && !s.threads[t].Idle?
  }

  ghost predicate CanGoOn(s: System, t: Thread) {
    Busy(s, t) && exists name :: Ready(s, s.threads[t], name)
  }

  lemma BuilderGoesOn(s: System, t: Thread)
    requires Inv(s) && t in s.threads && Builds(s.threads[t])
    ensures CanGoOn(s, t)
  {
    var pc := s.threads[t];
    if pc.Created? {
      forall u | u in s.threads && Loads(s.threads[u])
        ensures s.threads[u].h != pc.h
      {
        assert u != t && Compatible(pc, s.threads[u]);
      }
      assert Free(s, pc.h);
    }
    assert Ready(s, pc, "");
  }

  lemma OtherGoesOn(s: System, t: Thread)
    requires Inv(s) && Busy(s, t) && forall u :: u in s.threads ==> !Builds(s.threads[u])
    requires Reads(s.threads[t]) || Writes(s.threads[t])
      || forall u :: u in s.threads ==> !Reads(s.threads[u]) && !Writes(s.threads[u])
    ensures CanGoOn(s, t)
  {
    var pc := s.threads[t];
    assert forall h: nat :: Free(s, h);
    assert forall f :: FreeUnder(s, f);
    if pc.Sweeping? && pc.todo != {} {
      var name :| name in pc.todo;
      assert Ready(s, pc, name);
    } else if pc.Clearing? && s.objects != map[] {
      assert s.objects.Keys != {};
      var name :| name in s.objects;
      assert Ready(s, pc, name);
    } else {
      assert Ready(s, pc, "");
    }
  }

  /** No deadlock between the container lock, the mutexes of the holders and the loads. */
  lemma NeverStuck(s: System, t: Thread)
    requires Inv(s) && Busy(s, t)
    ensures exists u :: CanGoOn(s, u)
  {
    if u :| u in s.threads && Builds(s.threads[u]) {
      BuilderGoesOn(s, u);
    } else if u :| u in s.threads && (Reads(s.threads[u]) || Writes(s.threads[u])) {
      OtherGoesOn(s, u);
    } else {
      OtherGoesOn(s, t);
    }
  }

  // --- Runs ---------------------------------------------------------------------------------

  ghost predicate IsRun(states: seq<System>, steps: seq<Step>) {
    && |states| == |steps| + 1
    && Init(states[0])
    && forall i :: 0 <= i < |steps| ==> Enabled(states[i], steps[i]) && states[i + 1] == Next(states[i], steps[i])
  }

  lemma {:induction false} RunKeepsInv(states: seq<System>, steps: seq<Step>, i: nat)
    requires IsRun(states, steps) && i <= |steps|
    ensures Inv(states[i]) && states[i].period == states[0].period
  {
    if i > 0 {
      RunKeepsInv(states, steps, i - 1);
      assert states[i] == Next(states[i - 1], steps[i - 1]);
      StepKeepsInv(states[i - 1], steps[i - 1]);
      if steps[i - 1].Run? {
        OneMoves(states[i - 1], steps[i - 1]);
      }
      hide Inv, Enabled, Init, NextPc, NextObjects, NextHolders;
    }
  }

  /** At step j thread t finds holder h unmodified: its times and length are those of the file there is. */
  ghost predicate Confirms(s: System, step: Step, t: Thread, f: Name, h: nat, mtime: Time, size: nat) {
    && step.Run? && step.t == t && t in s.threads
    && (s.threads[t].Comparing? || s.threads[t].Recomparing?) && s.threads[t].f == f && s.threads[t].h == h
    && f in s.files && s.files[f].mtime == mtime && |s.files[f].content| == size
  }

  /** The thread is between such a step and the return of the object. */
  ghost predicate Confirmed(pc: Pc, f: Name, h: nat) {
    (pc.Compared? || pc.Recompared? || pc.Fetching?) && pc.f == f && pc.h == h && pc.seen.Some?
  }

  /** Since such a step before i the thread has only carried its result along. */
  ghost predicate ConfirmedSince(
    states: seq<System>, steps: seq<Step>, i: nat, j: nat, t: Thread, f: Name, h: nat, mtime: Time, size: nat)
    requires IsRun(states, steps) && j < i <= |steps|
  {
    && Confirms(states[j], steps[j], t, f, h, mtime, size)
    && forall k :: j < k <= i ==> t in states[k].threads && Confirmed(states[k].threads[t], f, h)
  }

  lemma ConfirmedOrConfirming(s: System, step: Step, t: Thread, f: Name, h: nat)
    requires Enabled(s, step)
    requires t in Next(s, step).threads && Confirmed(Next(s, step).threads[t], f, h)
    ensures var seen := Next(s, step).threads[t].seen.value;
      || Confirms(s, step, t, f, h, seen.mtime, |seen.content|)
      || (t in s.threads && Confirmed(s.threads[t], f, h) && s.threads[t].seen.value == seen)
  {
    if step.Run? {
      OneMoves(s, step);
      if step.t == t {
        PcLearns(s, step);
      }
    }
    hide NextPc, NextObjects, NextHolders, Ready, Answer, FreeUnder;
  }

  lemma {:induction false} ConfirmedBefore(states: seq<System>, steps: seq<Step>, i: nat, t: Thread, f: Name, h: nat)
    requires IsRun(states, steps) && i <= |steps|
    requires t in states[i].threads && Confirmed(states[i].threads[t], f, h)
    ensures var seen := states[i].threads[t].seen.value;
      exists j :: 0 <= j < i && ConfirmedSince(states, steps, i, j, t, f, h, seen.mtime, |seen.content|)
  {
    if i > 0 {
      var before, step, seen := states[i - 1], steps[i - 1], states[i].threads[t].seen.value;
      assert Enabled(before, step) && states[i] == Next(before, step);
      ConfirmedOrConfirming(before, step, t, f, h);
      hide Next, Enabled;
      if Confirms(before, step, t, f, h, seen.mtime, |seen.content|) {
        assert ConfirmedSince(states, steps, i, i - 1, t, f, h, seen.mtime, |seen.content|);
      } else {
        ConfirmedBefore(states, steps, i - 1, t, f, h);
        var j :| 0 <= j < i - 1 && ConfirmedSince(states, steps, i - 1, j, t, f, h, seen.mtime, |seen.content|);
        assert ConfirmedSince(states, steps, i, j, t, f, h, seen.mtime, |seen.content|);
      }
    }
  }

  /**
   * Without a review period get returns a cached object only if, during this very call, the file had the time
   * and the length that are recorded with the object.
   */
  lemma CachedObjectsAreCurrent(states: seq<System>, steps: seq<Step>, i: nat, t: Thread, f: Name)
    requires IsRun(states, steps) && i < |steps| && states[0].period == 0
    requires steps[i].Run? && steps[i].t == t && states[i].threads[t].Fetching? && states[i].threads[t].f == f
    ensures var h := states[i].threads[t].h;
      && h < |states[i].holders| && Fetched(states[i].holders[h]) == Got(states[i].holders[h].item)
      && var holder := states[i].holders[h];
         exists j :: 0 <= j < i && ConfirmedSince(states, steps, i, j, t, f, h, holder.mtime, holder.size)
  {
    RunKeepsInv(states, steps, i);
    assert Sound(states[i], states[i].threads[t]);
    hide Inv, Next, Init, Enabled;
    ConfirmedBefore(states, steps, i, t, f, states[i].threads[t].h);
  }

  /**
   * If time and length tell versions apart, the returned content is that of the file exactly when the version
   * that the load opened had the content of the one that it looked at afterwards.
   */
  lemma ContentIsCurrent(s: System, t: Thread)
    requires Inv(s) && t in s.threads && s.threads[t].Fetching? && s.threads[t].seen.Some?
    requires var h, file := s.threads[t].h, s.threads[t].seen.value;
      h in s.loads && (s.loads[h].1.mtime == file.mtime && |s.loads[h].1.content| == |file.content| ==>
        s.loads[h].1.content == file.content)
    ensures var h, file := s.threads[t].h, s.threads[t].seen.value;
      && h < |s.holders| && s.holders[h].item.Some?
      && (s.holders[h].item.value.content == file.content <==> s.loads[h].0.content == s.loads[h].1.content)
  {
    assert Sound(s, s.threads[t]);
    assert SoundHolder(s, s.threads[t].h);
  }

  // --- A file replaced between fopen and stat -----------------------------------------------

  ghost predicate Leads(s: System, step: Step, s': System) {
    Enabled(s, step) && s' == Next(s, step)
  }

  /**
   * The load goes through, records the newer time and length with the older content, and from then on the
   * object passes for unmodified.
   */
  lemma ReplacedWhileLoading(s: System, t: Thread, newer: File, clock: Time)
    returns (begun: System, replaced: System, stated: System, loaded: System)
    requires Inv(s) && t in s.threads && s.threads[t].Opening? && s.threads[t].f in s.files
    ensures var go := Run(t, Clear, clock, s.threads[t].f, true);
      && Leads(s, go, begun) && Leads(begun, Replace(s.threads[t].f, Some(newer)), replaced)
      && Leads(replaced, go, stated) && Leads(stated, go, loaded)
    ensures var f, h := s.threads[t].f, s.threads[t].h;
      && loaded.threads[t].Idle? && f in loaded.objects && loaded.objects[f] == h < |loaded.holders|
      && loaded.holders[h].item == Some(NewObject(h + 1, s.files[f].content))
      && forall why, now :: Answer(loaded, Comparing(why, f, now, h)).No?
  {
    var pc := s.threads[t];
    var f, older, go := pc.f, s.files[pc.f], Run(t, Clear, clock, pc.f, true);
    assert Sound(s, pc);
    hide Inv, Sound, Leads, Next, Answer;
    begun := OpensFile(s, t, go);
    replaced := ReplacesFile(begun, f, newer);
    stated := StatsFile(replaced, t, go);
    loaded := FillsHolder(stated, t, go);
    hide *;
  }

  lemma OpensFile(s: System, t: Thread, go: Step) returns (s': System)
    requires t in s.threads && s.threads[t].Opening? && s.threads[t].f in s.files && go.Run? && go.t == t
    requires s.threads[t].h < |s.holders|
    ensures var pc := s.threads[t];
      && Leads(s, go, s') && t in s'.threads
      && s'.holders == s.holders && s'.objects == s.objects && s'.files == s.files
      && s'.threads[t] == Stating(pc.f, pc.h, pc.number, pc.start, s.files[pc.f])
  {
    s' := Next(s, go);
    hide AfterLoad, Answer;
    assert NextHolders(s, s.threads[t], go.clock, go.intact) == s.holders;
  }

  lemma ReplacesFile(s: System, f: Name, newer: File) returns (s': System)
    ensures Leads(s, Replace(f, Some(newer)), s') && s' == s.(files := s.files[f := newer])
  {
    s' := Next(s, Replace(f, Some(newer)));
  }

  lemma StatsFile(s: System, t: Thread, go: Step) returns (s': System)
    requires t in s.threads && s.threads[t].Stating? && s.threads[t].f in s.files && go.Run? && go.t == t
    requires s.threads[t].h < |s.holders|
    ensures var pc := s.threads[t];
      && Leads(s, go, s') && t in s'.threads
      && s'.holders == s.holders && s'.objects == s.objects && s'.files == s.files
      && s'.threads[t] == Filling(pc.f, pc.h, pc.number, pc.start, pc.open, s.files[pc.f])
  {
    s' := Next(s, go);
    hide AfterLoad, Answer;
    assert NextHolders(s, s.threads[t], go.clock, go.intact) == s.holders;
  }

  lemma FillsHolder(s: System, t: Thread, go: Step) returns (s': System)
    requires t in s.threads && s.threads[t].Filling? && go.Run? && go.t == t && go.intact
    requires var pc := s.threads[t];
      && pc.h < |s.holders| && pc.f in s.objects && s.objects[pc.f] == pc.h && pc.number == pc.h + 1
      && pc.f in s.files && s.files[pc.f] == pc.stated
    ensures var pc := s.threads[t];
      && Leads(s, go, s') && t in s'.threads && s'.threads[t].Idle? && s'.objects == s.objects && s'.files == s.files
      && pc.h < |s'.holders| && s'.holders[pc.h].item == Some(NewObject(pc.h + 1, pc.open.content))
      && forall why, now :: Answer(s', Comparing(why, pc.f, now, pc.h)).No?
  {
    s' := Next(s, go);
    hide NewObject;
  }

  lemma OneMoreStep(states: seq<System>, steps: seq<Step>, step: Step, s: System)
    requires IsRun(states, steps) && Leads(states[|steps|], step, s)
    ensures IsRun(states + [s], steps + [step])
  {
    hide Init, Enabled, Next;
  }

  function Where(s: System, t: Thread, pc: Pc): System {
    s.(threads := s.threads[t := pc])
  }

  ghost predicate Alone(s: System, t: Thread) {
    t in s.threads && forall u :: u in s.threads && u != t ==> s.threads[u].Idle?
  }

  /** The lookup of a thread that is alone, in a cache without a time-out that does not know the name. */
  lemma LookupLeads(s: System, t: Thread, f: Name, clock: Time)
    requires Alone(s, t) && s.timeout == 0 && s.objects == map[] && f != ""
    ensures var go := Run(t, Get(f), clock, f, true);
      && Leads(Where(s, t, Idle), go, Where(s, t, Entering(f, clock)))
      && Leads(Where(s, t, Entering(f, clock)), go, Where(s, t, Looking(ForGet, f, clock)))
      && Leads(Where(s, t, Looking(ForGet, f, clock)), go, Where(s, t, Reading(ForGet, f, clock)))
      && Leads(Where(s, t, Reading(ForGet, f, clock)), go, Where(s, t, Wanting(f, clock)))
      && Leads(Where(s, t, Wanting(f, clock)), go, Where(s, t, Writing(f, clock)))
  {
    var go := Run(t, Get(f), clock, f, true);
    hide Leads, Alone;
    Moves(s, t, Idle, Entering(f, clock), go);
    Moves(s, t, Entering(f, clock), Looking(ForGet, f, clock), go);
    Moves(s, t, Looking(ForGet, f, clock), Reading(ForGet, f, clock), go);
    Moves(s, t, Reading(ForGet, f, clock), Wanting(f, clock), go);
    Moves(s, t, Wanting(f, clock), Writing(f, clock), go);
  }

  /** The cache after the thread has created the first holder. */
  function WithFirst(s: System, f: Name): System {
    s.(objects := map[f := 0], holders := [NEW_HOLDER], number := 2)
  }

  lemma CreationLeads(s: System, t: Thread, f: Name, clock: Time)
    requires Alone(s, t) && s.objects == map[] && s.holders == [] && s.number == 1
    ensures var s1, s2 := Where(s, t, Writing(f, clock)), Where(WithFirst(s, f), t, Created(f, 0, 1));
      Leads(s1, Run(t, Get(f), clock, f, true), s2)
  {
    hide Alone;
    var pc := Writing(f, clock);
    var s1 := Where(s, t, pc);
    assert s1.threads[t := Created(f, 0, 1)] == s.threads[t := Created(f, 0, 1)];
    assert NextObjects(s1, pc, f) == map[f := 0];
  }

  lemma LoadLeads(s: System, t: Thread, f: Name, clock: Time)
    requires Alone(s, t)
    ensures var go := Run(t, Get(f), clock, f, true); var s' := WithFirst(s, f);
      && Leads(Where(s', t, Created(f, 0, 1)), go, Where(s', t, HandingOver(f, 0, 1)))
      && Leads(Where(s', t, HandingOver(f, 0, 1)), go, Where(s', t, Opening(f, 0, 1, clock)))
  {
    var pc, pc', s' := Created(f, 0, 1), HandingOver(f, 0, 1), WithFirst(s, f);
    var s1, s2 := Where(s', t, pc), Where(s', t, pc');
    assert s1.threads[t := pc'] == s.threads[t := pc'];
    assert s2.threads[t := Opening(f, 0, 1, clock)] == s.threads[t := Opening(f, 0, 1, clock)];
    hide Answer, OnDisk, AfterLoad;
    assert NextHolders(s1, pc, clock, true) == s1.holders && NextHolders(s2, pc', clock, true) == s2.holders;
  }

  /** A run from the empty cache to the beginning of a load. */
  lemma LoadBegins(s: System, t: Thread, f: Name, clock: Time) returns (states: seq<System>, steps: seq<Step>)
    requires Init(s) && t in s.threads && s.timeout == 0 && f != ""
    ensures IsRun(states, steps) && states[0] == s
    ensures states[|steps|] == Where(WithFirst(s, f), t, Opening(f, 0, 1, clock))
  {
    var go, s' := Run(t, Get(f), clock, f, true), WithFirst(s, f);
    assert Where(s, t, Idle) == s by {
      assert s.threads == s.threads[t := Idle];
    }
    LookupLeads(s, t, f, clock);
    CreationLeads(s, t, f, clock);
    LoadLeads(s, t, f, clock);
    hide Leads, Where, WithFirst;
    assert IsRun([s], []);
    var first, last := Where(s, t, Writing(f, clock)), Where(s', t, Opening(f, 0, 1, clock));
    hide IsRun, Init;
    var looking, wanting := Where(s, t, Looking(ForGet, f, clock)), Where(s, t, Wanting(f, clock));
    states, steps := TwoMoreSteps([s], [], go, Where(s, t, Entering(f, clock)), looking);
    states, steps := TwoMoreSteps(states, steps, go, Where(s, t, Reading(ForGet, f, clock)), wanting);
    states, steps := TwoMoreSteps(states, steps, go, first, Where(s', t, Created(f, 0, 1)));
    states, steps := TwoMoreSteps(states, steps, go, Where(s', t, HandingOver(f, 0, 1)), last);
  }

  lemma TwoMoreSteps(states: seq<System>, steps: seq<Step>, step: Step, s: System, s': System)
    returns (states': seq<System>, steps': seq<Step>)
    requires |states| == |steps| + 1 && IsRun(states, steps)
    requires Leads(states[|steps|], step, s) && Leads(s, step, s')
    ensures |states'| == |steps'| + 1 && IsRun(states', steps') && states'[0] == states[0] && states'[|steps'|] == s'
  {
    hide Leads;
    OneMoreStep(states, steps, step, s);
    OneMoreStep(states + [s], steps + [step], step, s');
    states', steps' := states + [s] + [s'], steps + [step] + [step];
  }

  /**
   * A run from the empty cache, for any file and any newer version of it, that ends with the old content under
   * the time and the length of the newer version, and unmodified.
   */
  lemma OldContentStays(s: System, t: Thread, f: Name, newer: File, clock: Time)
    returns (states: seq<System>, steps: seq<Step>)
    requires Init(s) && t in s.threads && s.timeout == 0 && f != "" && f in s.files
    ensures IsRun(states, steps) && states[0] == s
    ensures var end := states[|steps|];
      && t in end.threads && end.threads[t].Idle? && OnDisk(end, f) == Some(newer)
      && f in end.objects && end.objects[f] == 0 < |end.holders|
      && end.holders[0].item == Some(NewObject(1, s.files[f].content))
      && forall why, now :: Answer(end, Comparing(why, f, now, 0)).No?
  {
    states, steps := LoadBegins(s, t, f, clock);
    RunKeepsInv(states, steps, |steps|);
    var begun, replaced, stated, loaded := ReplacedWhileLoading(states[|steps|], t, newer, clock);
    var go := Run(t, Clear, clock, f, true);
    OnDiskAfter(replaced, stated, loaded, t, f, go);
    hide Leads, Inv, Init, NewObject;
    OneMoreStep(states, steps, go, begun);
    OneMoreStep(states + [begun], steps + [go], Replace(f, Some(newer)), replaced);
    OneMoreStep(states + [begun] + [replaced], steps + [go] + [Replace(f, Some(newer))], go, stated);
    OneMoreStep(states + [begun] + [replaced] + [stated], steps + [go] + [Replace(f, Some(newer))] + [go], go, loaded);
    states := states + [begun] + [replaced] + [stated] + [loaded];
    steps := steps + [go] + [Replace(f, Some(newer))] + [go] + [go];
  }

  lemma OnDiskAfter(a: System, b: System, c: System, t: Thread, f: Name, go: Step)
    requires go.Run? && Leads(a, go, b) && Leads(b, go, c)
    ensures OnDisk(c, f) == OnDisk(a, f)
  {
  }

  // --- What a call of get does when nothing intervenes --------------------------------------

  /** So many steps, all by the same thread with the same choices. */
  ghost predicate Reaches(s: System, step: Step, s': System, n: nat)
    decreases n
  {
    if n == 0 then s == s' else exists m :: Leads(s, step, m) && Reaches(m, step, s', n - 1)
  }

  lemma OneBefore(s: System, step: Step, m: System, s': System, n: nat)
    requires Leads(s, step, m) && Reaches(m, step, s', n)
    ensures Reaches(s, step, s', n + 1)
  {
  }

  lemma {:induction false} ReachesOn(s: System, step: Step, m: System, s': System, n: nat, k: nat)
    requires Reaches(s, step, m, n) && Reaches(m, step, s', k)
    ensures Reaches(s, step, s', n + k)
    decreases n
  {
    hide Leads;
    if n == 0 {
    } else {
      var s1 :| Leads(s, step, s1) && Reaches(s1, step, m, n - 1);
      ReachesOn(s1, step, m, s', n - 1, k);
      OneBefore(s, step, s1, s', n - 1 + k);
    }
  }

  /** The steps of get that only look. */
  predicate Looks(s: System, pc: Pc) {
    || pc.Idle? || pc.Entering? || pc.Looking? || pc.Reading? || pc.Wanting?
    || ((pc.Reviewing? || pc.Comparing?) && pc.h < |s.holders|)
    || (pc.Writing? && pc.f in s.objects)
  }

  lemma Moves(s: System, t: Thread, pc: Pc, pc': Pc, step: Step)
    requires Alone(s, t) && Looks(s, pc) && step.Run? && step.t == t
    requires pc' == NextPc(Where(s, t, pc), pc, step.call, step.clock, step.name)
    ensures Leads(Where(s, t, pc), step, Where(s, t, pc'))
  {
    hide NextPc, AfterLoad, Answer;
    var s1 := Where(s, t, pc);
    assert s1.threads[t := pc'] == s.threads[t := pc'];
    assert Ready(s1, pc, step.name);
    assert NextHolders(s1, pc, step.clock, step.intact) == s.holders;
  }

  /** The last review is not long ago, however it ended; or the file still has the recorded time and length. */
  predicate Current(s: System, f: Name, h: nat, now: Time)
    requires h < |s.holders|
  {
    var holder := s.holders[h];
    || (s.period != 0 && now < holder.reviewed + s.period)
    || (holder.phase.Loaded? && f in s.files &&
         holder.mtime == s.files[f].mtime && holder.size == |s.files[f].content|)
  }

  lemma IdleHere(s: System, t: Thread)
    requires t in s.threads && s.threads[t].Idle?
    ensures Where(s, t, Idle) == s
  {
    assert s.threads[t := Idle] == s.threads;
  }

  /** No sweep is due. */
  predicate NoSweep(s: System, step: Step) {
    step.Run? && (s.timeout == 0 || step.clock <= s.lastCheck + s.timeout)
  }

  lemma LooksUp(s: System, t: Thread, step: Step)
    requires Alone(s, t) && NoSweep(s, step) && step.t == t && step.call.Get? && step.call.f != ""
    ensures var f, now := step.call.f, step.clock;
      Reaches(Where(s, t, Idle), step, Where(s, t, Reading(ForGet, f, now)), 3)
  {
    var f, now := step.call.f, step.clock;
    var s0, s1, s2, s3 := Where(s, t, Idle), Where(s, t, Entering(f, now)), Where(s, t, Looking(ForGet, f, now)),
      Where(s, t, Reading(ForGet, f, now));
    Moves(s, t, Idle, Entering(f, now), step);
    Moves(s, t, Entering(f, now), Looking(ForGet, f, now), step);
    Moves(s, t, Looking(ForGet, f, now), Reading(ForGet, f, now), step);
    hide Leads, Where, Alone;
    OneBefore(s2, step, s3, s3, 0);
    OneBefore(s1, step, s2, s3, 1);
    OneBefore(s0, step, s1, s3, 2);
  }

  /** Where get goes in two lookups that find nothing of use. */
  lemma MissPcs(s: System, t: Thread, f: Name, now: Time, step: Step)
    requires step.Run? && (f in s.objects ==> s.objects[f] < |s.holders| && !Current(s, f, s.objects[f], now))
    requires f in s.objects ==> !s.holders[s.objects[f]].phase.Loading?
    ensures var reading, wanting, writing := Reading(ForGet, f, now), Wanting(f, now), Writing(f, now);
      && NextPc(Where(s, t, wanting), wanting, step.call, step.clock, step.name) == writing
      && (f !in s.objects ==> NextPc(Where(s, t, reading), reading, step.call, step.clock, step.name) == wanting)
      && (f in s.objects ==>
           var h := s.objects[f];
           var reviewing, comparing, end := Reviewing(ForGet, f, now, h), Comparing(ForGet, f, now, h),
             Recomparing(f, now, h);
           && NextPc(Where(s, t, reading), reading, step.call, step.clock, step.name) == reviewing
           && NextPc(Where(s, t, reviewing), reviewing, step.call, step.clock, step.name) == comparing
           && NextPc(Where(s, t, comparing), comparing, step.call, step.clock, step.name) == wanting
           && NextPc(Where(s, t, writing), writing, step.call, step.clock, step.name) == end
           && Answer(s, end).Yes?)
  {
  }

  lemma LooksTwiceCached(s: System, t: Thread, step: Step)
    requires Alone(s, t) && step.Run? && step.t == t && step.call.Get?
    requires var f := step.call.f;
      && f in s.objects && s.objects[f] < |s.holders| && !Current(s, f, s.objects[f], step.clock)
      && !s.holders[s.objects[f]].phase.Loading?
    ensures var f, now := step.call.f, step.clock;
      && Reaches(Where(s, t, Reading(ForGet, f, now)), step, Where(s, t, Recomparing(f, now, s.objects[f])), 5)
      && Answer(s, Recomparing(f, now, s.objects[f])).Yes?
  {
    var f, now := step.call.f, step.clock;
    var h := s.objects[f];
    var reading, reviewing := Reading(ForGet, f, now), Reviewing(ForGet, f, now, h);
    var comparing, wanting, writing := Comparing(ForGet, f, now, h), Wanting(f, now), Writing(f, now);
    var end := Recomparing(f, now, h);
    MissPcs(s, t, f, now, step);
    hide Leads, Alone, Reaches, NextPc, Answer, Current, Where;
    Moves(s, t, reading, reviewing, step);
    Moves(s, t, reviewing, comparing, step);
    Moves(s, t, comparing, wanting, step);
    Moves(s, t, wanting, writing, step);
    Moves(s, t, writing, end, step);
    NoSteps(Where(s, t, reading), step);
    Chain(Where(s, t, reading), step, Where(s, t, reading), Where(s, t, reviewing), Where(s, t, comparing), 0);
    Chain(Where(s, t, reading), step, Where(s, t, comparing), Where(s, t, wanting), Where(s, t, writing), 2);
    OneAfter(Where(s, t, reading), step, Where(s, t, writing), Where(s, t, end), 4);
  }

  /** A lookup that finds nothing of use: it goes on to the write lock and there, too, to a new holder. */
  lemma LooksTwice(s: System, t: Thread, step: Step)
    requires Inv(s) && Alone(s, t) && s.threads[t].Idle? && NoSweep(s, step)
    requires step.t == t && step.call.Get? && step.call.f != ""
    requires var f := step.call.f; f in s.objects ==> !Current(s, f, s.objects[f], step.clock)
    ensures var f, now := step.call.f, step.clock;
      if f in s.objects then
        Reaches(Where(s, t, Reading(ForGet, f, now)), step, Where(s, t, Recomparing(f, now, s.objects[f])), 5)
        && Answer(s, Recomparing(f, now, s.objects[f])).Yes?
      else Reaches(Where(s, t, Reading(ForGet, f, now)), step, Where(s, t, Writing(f, now)), 2)
  {
    var f, now := step.call.f, step.clock;
    if f in s.objects {
      NobodyBuilds(s, t, s.objects[f]);
      LooksTwiceCached(s, t, step);
    } else {
      var reading, wanting, writing := Reading(ForGet, f, now), Wanting(f, now), Writing(f, now);
      MissPcs(s, t, f, now, step);
      hide Leads, Alone, Reaches, NextPc, Where;
      Moves(s, t, reading, wanting, step);
      Moves(s, t, wanting, writing, step);
      NoSteps(Where(s, t, reading), step);
      Chain(Where(s, t, reading), step, Where(s, t, reading), Where(s, t, wanting), Where(s, t, writing), 0);
    }
    hide *;
  }

  lemma NobodyBuilds(s: System, t: Thread, h: nat)
    requires Inv(s) && Alone(s, t) && s.threads[t].Idle? && h < |s.holders|
    ensures !s.holders[h].phase.Loading?
  {
    assert SoundHolder(s, h);
  }

  /** The steps of get that mark a holder. */
  lemma Marks(s: System, t: Thread, pc: Pc, pc': Pc, step: Step)
    requires Alone(s, t) && (pc.Compared? || pc.Fetching? || pc.Marking?) && pc.h < |s.holders|
    requires step.Run? && step.t == t
    requires pc' == NextPc(Where(s, t, pc), pc, step.call, step.clock, step.name)
    ensures var marked := s.(holders := s.holders[pc.h := Touched(s, pc, s.holders[pc.h], step.clock, step.intact)]);
      Alone(marked, t) && Leads(Where(s, t, pc), step, Where(marked, t, pc'))
  {
    hide NextPc, AfterLoad, Answer, Fetched;
    var s1 := Where(s, t, pc);
    assert s1.threads[t := pc'] == s.threads[t := pc'];
    assert Ready(s1, pc, step.name);
  }

  /** The state that a hit leaves: the holder is marked as accessed, and as reviewed if it was compared. */
  function AfterHit(s: System, f: Name, h: nat, now: Time): System
    requires h < |s.holders|
  {
    var holder := s.holders[h];
    var reviewed := if s.period != 0 && now < holder.reviewed + s.period then holder.reviewed else now;
    s.(holders := s.holders[h := holder.(
      accessed := if holder.phase.Loaded? then now else holder.accessed, reviewed := reviewed)])
  }

  /** Where get goes in a lookup that finds its name, and then in one that finds it current. */
  lemma HitPcs(s: System, t: Thread, f: Name, now: Time, step: Step)
    requires f in s.objects && s.objects[f] < |s.holders| && Current(s, f, s.objects[f], now) && step.Run?
    ensures var h := s.objects[f];
      var reading, reviewing, comparing := Reading(ForGet, f, now), Reviewing(ForGet, f, now, h),
        Comparing(ForGet, f, now, h);
      var compared, seen := Compared(f, now, h, OnDisk(s, f)), OnDisk(s, f);
      && NextPc(Where(s, t, reading), reading, step.call, step.clock, step.name) == reviewing
      && (if s.period != 0 && now < s.holders[h].reviewed + s.period then
            NextPc(Where(s, t, reviewing), reviewing, step.call, step.clock, step.name)
            == Fetching(ForGet, f, now, h, None)
          else
            && NextPc(Where(s, t, reviewing), reviewing, step.call, step.clock, step.name) == comparing
            && NextPc(Where(s, t, comparing), comparing, step.call, step.clock, step.name) == compared
            && NextPc(Where(s, t, compared), compared, step.call, step.clock, step.name)
               == Fetching(ForGet, f, now, h, seen))
  {
  }

  lemma HitHolders(s: System, f: Name, h: nat, now: Time, seen: Option<File>, step: Step)
    requires h < |s.holders| && step.Run? && step.clock == now && s.holders[h].phase.Loaded?
    requires !(s.period != 0 && now < s.holders[h].reviewed + s.period)
    ensures var compared, fetching := Compared(f, now, h, seen), Fetching(ForGet, f, now, h, seen);
      var one := Touched(s, compared, s.holders[h], now, step.intact);
      var marked := s.(holders := s.holders[h := one]);
      && Touched(marked, fetching, one, now, step.intact) == one.(accessed := now)
      && marked.(holders := marked.holders[h := one.(accessed := now)]) == AfterHit(s, f, h, now)
      && Fetched(one) == Fetched(s.holders[h])
  {
    hide AfterLoad;
  }

  lemma ReviewedHolders(s: System, f: Name, h: nat, now: Time, step: Step)
    requires h < |s.holders| && step.Run? && step.clock == now && !s.holders[h].phase.Loading?
    requires s.period != 0 && now < s.holders[h].reviewed + s.period
    ensures var fetching := Fetching(ForGet, f, now, h, None);
      s.(holders := s.holders[h := Touched(s, fetching, s.holders[h], now, step.intact)]) == AfterHit(s, f, h, now)
  {
    hide AfterLoad;
    assert s.holders[h := s.holders[h]] == s.holders;
  }

  /**
   * A get that nothing intervenes in, of a name that is cached and current: it ends with what the holder has, the
   * object or the error of its load, without another load.
   */
  lemma GetHits(s: System, t: Thread, step: Step) returns (n: nat, last: System)
    requires Inv(s) && Alone(s, t) && s.threads[t].Idle? && NoSweep(s, step)
    requires step.t == t && step.call.Get? && step.call.f != ""
    requires var f := step.call.f; f in s.objects && Current(s, f, s.objects[f], step.clock)
    ensures var f, now := step.call.f, step.clock; var h := s.objects[f];
      && Reaches(s, step, last, n) && Leads(last, step, Where(AfterHit(s, f, h, now), t, Idle))
      && t in last.threads && last.threads[t].Fetching? && last.threads[t].h == h && h < |last.holders|
      && Fetched(last.holders[h]) == Fetched(s.holders[h])
  {
    var f, now := step.call.f, step.clock;
    var h := s.objects[f];
    IdleHere(s, t);
    NobodyBuilds(s, t, h);
    LooksUp(s, t, step);
    hide Leads, Alone, Reaches, NextPc, AfterHit, Inv;
    if s.period != 0 && now < s.holders[h].reviewed + s.period {
      n, last := HitsReviewed(s, t, step);
    } else {
      n, last := HitsCompared(s, t, step);
    }
  }

  lemma HitsReviewed(s: System, t: Thread, step: Step) returns (n: nat, last: System)
    requires Alone(s, t) && step.Run? && step.t == t && step.call.Get?
    requires var f := step.call.f;
      && f in s.objects && s.objects[f] < |s.holders| && !s.holders[s.objects[f]].phase.Loading?
      && s.period != 0 && step.clock < s.holders[s.objects[f]].reviewed + s.period
    requires Reaches(s, step, Where(s, t, Reading(ForGet, step.call.f, step.clock)), 3)
    ensures var f, now := step.call.f, step.clock; var h := s.objects[f];
      && Reaches(s, step, last, n) && Leads(last, step, Where(AfterHit(s, f, h, now), t, Idle))
      && t in last.threads && last.threads[t].Fetching? && last.threads[t].h == h && last.holders == s.holders
  {
    var f, now := step.call.f, step.clock;
    var h := s.objects[f];
    var reading, reviewing := Reading(ForGet, f, now), Reviewing(ForGet, f, now, h);
    var fetching := Fetching(ForGet, f, now, h, None);
    hide Leads, Alone, Reaches, AfterHit, Touched;
    last := Where(s, t, fetching);
    assert t in last.threads && last.threads[t] == fetching && last.holders == s.holders;
    assert NextPc(last, fetching, step.call, step.clock, step.name) == Idle;
    hide NextPc, Where;
    HitPcs(s, t, f, now, step);
    ReviewedHolders(s, f, h, now, step);
    Moves(s, t, reading, reviewing, step);
    Moves(s, t, reviewing, fetching, step);
    Marks(s, t, fetching, Idle, step);
    Chain(s, step, Where(s, t, reading), Where(s, t, reviewing), last, 3);
    n := 5;
  }

  /** From the point where the holder was compared. */
  lemma HitMarks(s: System, t: Thread, step: Step) returns (last: System)
    requires Alone(s, t) && step.Run? && step.t == t && step.call.Get?
    requires var f := step.call.f;
      && f in s.objects && s.objects[f] < |s.holders| && s.holders[s.objects[f]].phase.Loaded?
      && !(s.period != 0 && step.clock < s.holders[s.objects[f]].reviewed + s.period)
    ensures var f, now := step.call.f, step.clock; var h := s.objects[f];
      && Leads(Where(s, t, Compared(f, now, h, OnDisk(s, f))), step, last)
      && Leads(last, step, Where(AfterHit(s, f, h, now), t, Idle))
      && t in last.threads && last.threads[t].Fetching? && last.threads[t].h == h && h < |last.holders|
      && Fetched(last.holders[h]) == Fetched(s.holders[h])
  {
    var f, now := step.call.f, step.clock;
    var h := s.objects[f];
    var compared, fetching := Compared(f, now, h, OnDisk(s, f)), Fetching(ForGet, f, now, h, OnDisk(s, f));
    HitHolders(s, f, h, now, OnDisk(s, f), step);
    var marked := s.(holders := s.holders[h := Touched(s, compared, s.holders[h], now, step.intact)]);
    last := Where(marked, t, fetching);
    assert NextPc(last, fetching, step.call, step.clock, step.name) == Idle;
    assert NextPc(Where(s, t, compared), compared, step.call, step.clock, step.name) == fetching;
    hide Leads, NextPc, AfterHit, Touched, OnDisk, Fetched;
    Marks(s, t, compared, fetching, step);
    Marks(marked, t, fetching, Idle, step);
  }

  lemma HitsCompared(s: System, t: Thread, step: Step) returns (n: nat, last: System)
    requires Alone(s, t) && step.Run? && step.t == t && step.call.Get?
    requires var f := step.call.f;
      && f in s.objects && s.objects[f] < |s.holders| && Current(s, f, s.objects[f], step.clock)
      && !(s.period != 0 && step.clock < s.holders[s.objects[f]].reviewed + s.period)
    requires Reaches(s, step, Where(s, t, Reading(ForGet, step.call.f, step.clock)), 3)
    ensures var f, now := step.call.f, step.clock; var h := s.objects[f];
      && Reaches(s, step, last, n) && Leads(last, step, Where(AfterHit(s, f, h, now), t, Idle))
      && t in last.threads && last.threads[t].Fetching? && last.threads[t].h == h && h < |last.holders|
      && Fetched(last.holders[h]) == Fetched(s.holders[h])
  {
    var f, now := step.call.f, step.clock;
    var h := s.objects[f];
    var reading, reviewing := Reading(ForGet, f, now), Reviewing(ForGet, f, now, h);
    var comparing, compared := Comparing(ForGet, f, now, h), Compared(f, now, h, OnDisk(s, f));
    HitPcs(s, t, f, now, step);
    last := HitMarks(s, t, step);
    hide Leads, Alone, Reaches, NextPc, AfterHit, OnDisk, Fetched;
    Moves(s, t, reading, reviewing, step);
    Moves(s, t, reviewing, comparing, step);
    Moves(s, t, comparing, compared, step);
    Chain(s, step, Where(s, t, reading), Where(s, t, reviewing), Where(s, t, comparing), 3);
    Chain(s, step, Where(s, t, comparing), Where(s, t, compared), last, 5);
    n := 7;
  }

  lemma Chain(s: System, step: Step, a: System, b: System, c: System, n: nat)
    requires Reaches(s, step, a, n) && Leads(a, step, b) && Leads(b, step, c)
    ensures Reaches(s, step, c, n + 2)
  {
    OneBefore(b, step, c, c, 0);
    OneBefore(a, step, b, c, 1);
    ReachesOn(s, step, a, c, n, 2);
  }

  /** The state that a miss leaves: a new holder under the next number, with what its load came to. */
  function AfterMiss(s: System, f: Name, now: Time, intact: bool): System {
    var h := |s.holders|;
    var holder :=
      if f !in s.files then NEW_HOLDER.(phase := NotFound, reviewed := now)
      else if !intact then NEW_HOLDER.(phase := LoadingError, reviewed := now)
      else
        var content := s.files[f].content;
        Holder(Loaded, Some(Object(s.number, content, Hash(content))), s.files[f].mtime, |content|, now, now);
    s.(objects := s.objects[f := h], holders := s.holders + [holder], number := s.number + 1,
       loads := if f in s.files && intact then s.loads[h := (s.files[f], s.files[f])] else s.loads)
  }

  function WithNew(s: System, f: Name): System {
    s.(objects := s.objects[f := |s.holders|], holders := s.holders + [NEW_HOLDER], number := s.number + 1)
  }

  lemma MissCreates(s: System, t: Thread, pc: Pc, step: Step)
    requires Alone(s, t) && step.Run? && step.t == t
    requires (pc.Writing? && pc.f !in s.objects) || (pc.Recomparing? && Answer(s, pc).Yes?)
    ensures Leads(Where(s, t, pc), step, Where(WithNew(s, pc.f), t, Created(pc.f, |s.holders|, s.number)))
  {
    hide IsModified;
    var s1, pc' := Where(s, t, pc), Created(pc.f, |s.holders|, s.number);
    assert s1.threads[t := pc'] == s.threads[t := pc'];
    assert pc.Recomparing? ==> Answer(s1, pc) == Answer(s, pc);
    assert NextPc(s1, pc, step.call, step.clock, step.name) == pc' && Ready(s1, pc, step.name);
  }

  /** The steps of a load before its end. */
  lemma LoadMoves(s: System, t: Thread, pc: Pc, pc': Pc, step: Step)
    requires Alone(s, t) && Builds(pc) && !Ends(s, pc) && pc.h < |s.holders| && step.Run? && step.t == t
    requires pc' == NextPc(Where(s, t, pc), pc, step.call, step.clock, step.name)
    ensures Leads(Where(s, t, pc), step, Where(s, t, pc'))
  {
    hide NextPc, AfterLoad, Answer;
    var s1 := Where(s, t, pc);
    assert s1.threads[t := pc'] == s.threads[t := pc'];
    assert Ready(s1, pc, step.name);
    assert NextHolders(s1, pc, step.clock, step.intact) == s.holders;
  }

  lemma LoadEnds(s: System, t: Thread, pc: Pc, step: Step, f: Name, now: Time)
    requires Alone(s, t) && step.Run? && step.t == t && step.clock == now
    requires if f in s.files then pc == Filling(f, |s.holders|, s.number, now, s.files[f], s.files[f])
             else pc == Opening(f, |s.holders|, s.number, now)
    ensures Leads(Where(WithNew(s, f), t, pc), step, Where(AfterMiss(s, f, now, step.intact), t, Idle))
  {
    hide Hash;
    var n, end := WithNew(s, f), AfterMiss(s, f, now, step.intact);
    var s1 := Where(n, t, pc);
    assert s1.threads[t := Idle] == s.threads[t := Idle];
    assert NextPc(s1, pc, step.call, now, step.name) == Idle && Ready(s1, pc, step.name);
    assert (s.holders + [NEW_HOLDER])[|s.holders|] == NEW_HOLDER;
    assert NextHolders(s1, pc, now, step.intact) == end.holders;
  }

  lemma LoadPcs(s: System, t: Thread, f: Name, now: Time, step: Step)
    requires step.Run? && step.clock == now
    ensures var h, number, n := |s.holders|, s.number, WithNew(s, f);
      var created, handing, opening := Created(f, h, number), HandingOver(f, h, number), Opening(f, h, number, now);
      && NextPc(Where(n, t, created), created, step.call, now, step.name) == handing
      && NextPc(Where(n, t, handing), handing, step.call, now, step.name) == opening
      && (f in s.files ==>
           var stating := Stating(f, h, number, now, s.files[f]);
           && NextPc(Where(n, t, opening), opening, step.call, now, step.name) == stating
           && NextPc(Where(n, t, stating), stating, step.call, now, step.name)
              == Filling(f, h, number, now, s.files[f], s.files[f]))
  {
  }

  /** From the creation of the holder to the end of its load. */
  lemma LoadReaches(s: System, t: Thread, step: Step, f: Name) returns (n: nat)
    requires Alone(s, t) && step.Run? && step.t == t
    ensures Reaches(Where(WithNew(s, f), t, Created(f, |s.holders|, s.number)), step,
                    Where(AfterMiss(s, f, step.clock, step.intact), t, Idle), n)
  {
    var now, h, number, w := step.clock, |s.holders|, s.number, WithNew(s, f);
    var created, handing, opening := Created(f, h, number), HandingOver(f, h, number), Opening(f, h, number, now);
    var end := Where(AfterMiss(s, f, now, step.intact), t, Idle);
    LoadPcs(s, t, f, now, step);
    assert Alone(w, t) && h < |w.holders| && w.files == s.files;
    hide Leads, Alone, NextPc, AfterMiss, WithNew, Reaches;
    LoadMoves(w, t, created, handing, step);
    LoadMoves(w, t, handing, opening, step);
    NoSteps(Where(w, t, created), step);
    Chain(Where(w, t, created), step, Where(w, t, created), Where(w, t, handing), Where(w, t, opening), 0);
    if f in s.files {
      var stating := Stating(f, h, number, now, s.files[f]);
      var filling := Filling(f, h, number, now, s.files[f], s.files[f]);
      LoadMoves(w, t, opening, stating, step);
      LoadMoves(w, t, stating, filling, step);
      LoadEnds(s, t, filling, step, f, now);
      Chain(Where(w, t, created), step, Where(w, t, opening), Where(w, t, stating), Where(w, t, filling), 2);
      OneAfter(Where(w, t, created), step, Where(w, t, filling), end, 4);
      n := 5;
    } else {
      LoadEnds(s, t, opening, step, f, now);
      OneAfter(Where(w, t, created), step, Where(w, t, opening), end, 2);
      n := 3;
    }
  }

  lemma NoSteps(s: System, step: Step)
    ensures Reaches(s, step, s, 0)
  {
  }

  lemma OneAfter(s: System, step: Step, a: System, b: System, n: nat)
    requires Reaches(s, step, a, n) && Leads(a, step, b)
    ensures Reaches(s, step, b, n + 1)
  {
    OneBefore(a, step, b, b, 0);
    ReachesOn(s, step, a, b, n, 1);
  }

  /**
   * A get that nothing intervenes in, of a name that is not cached, or not current: it ends with a new load of the
   * file as it is, recorded with its time and length, or with the record of its failure.
   */
  lemma GetMisses(s: System, t: Thread, step: Step) returns (n: nat)
    requires Inv(s) && Alone(s, t) && s.threads[t].Idle? && NoSweep(s, step)
    requires step.t == t && step.call.Get? && step.call.f != ""
    requires var f := step.call.f; f in s.objects ==> !Current(s, f, s.objects[f], step.clock)
    ensures Reaches(s, step, Where(AfterMiss(s, step.call.f, step.clock, step.intact), t, Idle), n)
  {
    hide Inv, Leads, Reaches, Where, Answer, Current, AfterMiss;
    IdleHere(s, t);
    LooksUp(s, t, step);
    LooksTwice(s, t, step);
    var k := MissesAfterLook(s, t, step);
    ReachesOn(s, step, Where(s, t, Reading(ForGet, step.call.f, step.clock)),
      Where(AfterMiss(s, step.call.f, step.clock, step.intact), t, Idle), 3, k);
    n := 3 + k;
  }

  lemma MissesAfterLook(s: System, t: Thread, step: Step) returns (n: nat)
    requires Alone(s, t) && step.Run? && step.t == t && step.call.Get?
    requires var f, now := step.call.f, step.clock;
      if f in s.objects then
        Reaches(Where(s, t, Reading(ForGet, f, now)), step, Where(s, t, Recomparing(f, now, s.objects[f])), 5)
        && Answer(s, Recomparing(f, now, s.objects[f])).Yes?
      else Reaches(Where(s, t, Reading(ForGet, f, now)), step, Where(s, t, Writing(f, now)), 2)
    ensures Reaches(Where(s, t, Reading(ForGet, step.call.f, step.clock)), step,
                    Where(AfterMiss(s, step.call.f, step.clock, step.intact), t, Idle), n)
  {
    hide *;
    var f, now := step.call.f, step.clock;
    var reading, end := Where(s, t, Reading(ForGet, f, now)), Where(AfterMiss(s, f, now, step.intact), t, Idle);
    var created := Where(WithNew(s, f), t, Created(f, |s.holders|, s.number));
    var pc := if f in s.objects then Recomparing(f, now, s.objects[f]) else Writing(f, now);
    var looked := if f in s.objects then 5 else 2;
    var k := LoadReaches(s, t, step, f);
    MissCreates(s, t, pc, step);
    OneAfter(reading, step, Where(s, t, pc), created, looked);
    ReachesOn(reading, step, created, end, looked + 1, k);
    n := looked + 1 + k;
  }

  /** get first sweeps exactly if a sweep is due. */
  lemma SweepsWhenDue(s: System, step: Step)
    requires Enabled(s, step) && step.Run? && s.threads[step.t].Entering?
    ensures var pc := s.threads[step.t];
      Next(s, step).threads[step.t] ==
        if s.timeout != 0 && s.lastCheck + s.timeout < pc.now then SweepWanted(pc.f, pc.now)
        else Looking(ForGet, pc.f, pc.now)
  {
  }

  /** A sweep looks at every name once, and forgets those not accessed for the time-out, but not the wanted one. */
  lemma SweepForgetsStale(s: System, step: Step)
    requires Inv(s) && Enabled(s, step) && step.Run? && s.threads[step.t].Sweeping?
    ensures var pc, name, s' := s.threads[step.t], step.name, Next(s, step);
      if pc.todo == {} then s'.objects == s.objects && s'.lastCheck == pc.now
      else
        && s'.threads[step.t] == pc.(todo := pc.todo - {name}) && name in pc.todo && s'.lastCheck == s.lastCheck
        && (name !in s.objects ==> s'.objects == s.objects)
        && (name in s.objects ==>
             s'.objects ==
               if name != pc.f && s.holders[s.objects[name]].accessed + s.timeout < pc.now then s.objects - {name}
               else s.objects)
  {
  }

  /** erase forgets its name, and clear ends with nothing cached, having forgotten one name at a time. */
  lemma ForgetsNames(s: System, step: Step)
    requires Enabled(s, step) && step.Run?
    ensures var pc, pc', s' := s.threads[step.t], Next(s, step).threads[step.t], Next(s, step);
      && (pc.Idle? && step.call.Erase? ==> pc' == if step.call.f == "" then Idle else EraseWanted(step.call.f))
      && (pc.EraseWanted? ==> pc' == Erasing(pc.f))
      && (pc.Erasing? ==> s'.objects == s.objects - {pc.f} && pc'.Idle?)
      && (pc.Idle? && step.call.Clear? ==> pc'.ClearWanted?)
      && (pc.ClearWanted? ==> pc'.Clearing?)
      && (pc.Clearing? && s.objects == map[] ==> s'.objects == map[] && pc'.Idle?)
      && (pc.Clearing? && s.objects != map[] ==>
           step.name in s.objects && s'.objects == s.objects - {step.name} && pc'.Clearing?)
  {
  }

  /** The file still has the time and length of the object, and they are to be compared. */
  predicate Confirmable(s: System, f: Name, force: bool, now: Time) {
    && f in s.objects && s.objects[f] < |s.holders|
    && var holder := s.holders[s.objects[f]];
       && (force || s.period == 0 || holder.reviewed + s.period <= now)
       && holder.phase.Loaded? && f in s.files
       && holder.mtime == s.files[f].mtime && holder.size == |s.files[f].content|
  }

  /** What modified leaves: if the file is compared and unmodified, the object is marked as accessed and reviewed. */
  function AfterModified(s: System, f: Name, force: bool, now: Time): System {
    if !Confirmable(s, f, force, now) then s
    else
      var h := s.objects[f];
      s.(holders := s.holders[h := s.holders[h].(accessed := now, reviewed := now)])
  }

  /** A call of modified that nothing intervenes in. */
  lemma ModifiedRuns(s: System, t: Thread, step: Step) returns (n: nat)
    requires Inv(s) && Alone(s, t) && s.threads[t].Idle?
    requires step.Run? && step.t == t && step.call.Modified? && step.call.f != ""
    ensures Reaches(s, step, Where(AfterModified(s, step.call.f, step.call.force, step.clock), t, Idle), n)
  {
    hide Inv, Reaches, Leads, Where, AfterModified, Alone;
    var f, now, why := step.call.f, step.clock, ForModified(step.call.force);
    var reading := Where(s, t, Reading(why, f, now));
    ModifiedBegins(s, t, step);
    if f in s.objects {
      CachedIsSettled(s, t, f);
      var k := ModifiedLooks(s, t, step);
      ReachesOn(s, step, reading, Where(AfterModified(s, f, step.call.force, now), t, Idle), 2, k);
      n := 2 + k;
    } else {
      ModifiedMisses(s, t, step);
      OneAfter(s, step, reading, Where(s, t, Idle), 2);
      NothingToConfirm(s, f, step.call.force, now);
      n := 3;
    }
  }

  lemma CachedIsSettled(s: System, t: Thread, f: Name)
    requires Inv(s) && Alone(s, t) && s.threads[t].Idle? && f in s.objects
    ensures s.objects[f] < |s.holders| && !s.holders[s.objects[f]].phase.Loading?
  {
    NobodyBuilds(s, t, s.objects[f]);
  }

  lemma ModifiedBegins(s: System, t: Thread, step: Step)
    requires Alone(s, t) && s.threads[t].Idle?
    requires step.Run? && step.t == t && step.call.Modified? && step.call.f != ""
    ensures Reaches(s, step, Where(s, t, Reading(ForModified(step.call.force), step.call.f, step.clock)), 2)
  {
    var f, now, why := step.call.f, step.clock, ForModified(step.call.force);
    var looking, reading := Looking(why, f, now), Reading(why, f, now);
    IdleHere(s, t);
    hide Reaches, Leads, Alone;
    Moves(s, t, Idle, looking, step);
    Moves(s, t, looking, reading, step);
    NoSteps(s, step);
    Chain(s, step, s, Where(s, t, looking), Where(s, t, reading), 0);
  }

  lemma ModifiedMisses(s: System, t: Thread, step: Step)
    requires Alone(s, t) && step.Run? && step.t == t && step.call.Modified? && step.call.f !in s.objects
    ensures var pc := Reading(ForModified(step.call.force), step.call.f, step.clock);
      Leads(Where(s, t, pc), step, Where(s, t, Idle))
  {
    hide Leads, Alone;
    Moves(s, t, Reading(ForModified(step.call.force), step.call.f, step.clock), Idle, step);
  }

  lemma NothingToConfirm(s: System, f: Name, force: bool, now: Time)
    requires f !in s.objects
    ensures AfterModified(s, f, force, now) == s
  {
  }

  lemma ModifiedLooks(s: System, t: Thread, step: Step) returns (n: nat)
    requires Alone(s, t) && step.Run? && step.t == t && step.call.Modified?
    requires var f := step.call.f;
      f in s.objects && s.objects[f] < |s.holders| && !s.holders[s.objects[f]].phase.Loading?
    ensures Reaches(Where(s, t, Reading(ForModified(step.call.force), step.call.f, step.clock)), step,
                    Where(AfterModified(s, step.call.f, step.call.force, step.clock), t, Idle), n)
  {
    var f, now, why := step.call.f, step.clock, ForModified(step.call.force);
    var h := s.objects[f];
    var reading, reviewing, comparing := Reading(why, f, now), Reviewing(why, f, now, h), Comparing(why, f, now, h);
    var start := Where(s, t, reading);
    ModifiedPcs(s, t, f, now, step);
    hide Reaches, Leads, Alone, NextPc, Answer;
    NoSteps(start, step);
    Moves(s, t, reading, reviewing, step);
    if !step.call.force && s.period != 0 && now < s.holders[h].reviewed + s.period {
      Moves(s, t, reviewing, Idle, step);
      Chain(start, step, start, Where(s, t, reviewing), Where(s, t, Idle), 0);
      n := 2;
    } else {
      Moves(s, t, reviewing, comparing, step);
      Chain(start, step, start, Where(s, t, reviewing), Where(s, t, comparing), 0);
      if Confirmable(s, f, step.call.force, now) {
        var end := ModifiedMarks(s, t, step);
        Moves(s, t, comparing, Fetching(why, f, now, h, OnDisk(s, f)), step);
        OneAfter(start, step, Where(s, t, comparing), Where(s, t, Fetching(why, f, now, h, OnDisk(s, f))), 2);
        Chain(start, step, Where(s, t, Fetching(why, f, now, h, OnDisk(s, f))), end,
          Where(AfterModified(s, f, step.call.force, now), t, Idle), 3);
        n := 5;
      } else {
        Moves(s, t, comparing, Idle, step);
        OneAfter(start, step, Where(s, t, comparing), Where(s, t, Idle), 2);
        n := 3;
      }
    }
  }

  /** Where modified goes after it has found the name. */
  lemma ModifiedPcs(s: System, t: Thread, f: Name, now: Time, step: Step)
    requires f in s.objects && s.objects[f] < |s.holders| && !s.holders[s.objects[f]].phase.Loading?
    requires step.Run? && step.call.Modified?
    ensures var h, why := s.objects[f], ForModified(step.call.force);
      var reading, reviewing, comparing := Reading(why, f, now), Reviewing(why, f, now, h), Comparing(why, f, now, h);
      && NextPc(Where(s, t, reading), reading, step.call, step.clock, step.name) == reviewing
      && (if !step.call.force && s.period != 0 && now < s.holders[h].reviewed + s.period then
            NextPc(Where(s, t, reviewing), reviewing, step.call, step.clock, step.name) == Idle
          else
            && NextPc(Where(s, t, reviewing), reviewing, step.call, step.clock, step.name) == comparing
            && NextPc(Where(s, t, comparing), comparing, step.call, step.clock, step.name)
               == if Confirmable(s, f, step.call.force, now) then Fetching(why, f, now, h, OnDisk(s, f)) else Idle)
  {
  }

  lemma ModifiedMarks(s: System, t: Thread, step: Step) returns (end: System)
    requires Alone(s, t) && step.Run? && step.t == t && step.call.Modified?
    requires Confirmable(s, step.call.f, step.call.force, step.clock)
    ensures var f, now, why := step.call.f, step.clock, ForModified(step.call.force);
      && Leads(Where(s, t, Fetching(why, f, now, s.objects[f], OnDisk(s, f))), step, end)
      && Leads(end, step, Where(AfterModified(s, f, step.call.force, now), t, Idle))
  {
    var f, now, why := step.call.f, step.clock, ForModified(step.call.force);
    var h := s.objects[f];
    var fetching, marking := Fetching(why, f, now, h, OnDisk(s, f)), Marking(now, h);
    var accessed := s.(holders := s.holders[h := s.holders[h].(accessed := now)]);
    end := Where(accessed, t, marking);
    assert NextPc(Where(s, t, fetching), fetching, step.call, now, step.name) == marking;
    assert Touched(s, fetching, s.holders[h], now, step.intact) == s.holders[h].(accessed := now);
    assert Touched(accessed, marking, accessed.holders[h], now, step.intact) == accessed.holders[h].(reviewed := now);
    assert accessed.holders[h := accessed.holders[h].(reviewed := now)]
        == AfterModified(s, f, step.call.force, now).holders;
    hide Leads, Alone, Touched, Where;
    Marks(s, t, fetching, marking, step);
    Marks(accessed, t, marking, Idle, step);
  }
}
