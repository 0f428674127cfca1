/**
 Ownership of simulator callbacks in `rustdv-gpi/src/rustdv_gpi.rs`: one registration is
 shared by the Rust handle, by the simulator (through a raw pointer that owns a strong
 reference), and by every trampoline call in progress.

 A closure may do anything while it runs, in particular drop or forget its own handle, so
 a trampoline call is two steps, entering and returning, with arbitrary steps in between.
 The simulator is assumed not to fire a callback it has been asked to remove.
 */
module Callback {
  import opened Basics

  datatype Kind = OneShot | Recurring

  /**
   `strong` is the reference count, updated by the steps below exactly where the code
   clones, reclaims or drops an `Rc`. `frames` counts trampoline calls in progress. The
   last three fields count what must happen at most once.
   */
  datatype Cb = Cb(
    kind: Kind,
    released: bool,
    closure: bool,      // `once` or `repeat` still holds the closure
    borrowed: bool,     // `repeat` is mutably borrowed by a running trampoline
    strong: int,
    handleHeld: bool,
    cHeld: bool,        // the raw pointer given to the simulator still owns a reference
    registered: bool,   // the simulator still knows the callback
    frames: nat,
    aborted: bool,      // a second mutable borrow panicked across the C boundary
    cReleases: nat,
    removals: nat,
    runs: nat)

  /** `register`: one reference for the handle and one leaked to the simulator. */
  function Registered(kind: Kind): Cb {
    Cb(kind, false, true, false, 2, true, true, true, 0, false, 0, 0, 0)
  }

  datatype Step =
    | Fire    // the simulator calls the trampoline, up to the start of the closure
    | Return  // the closure returns or its panic is caught, and the trampoline ends
    | Drop    // the handle is dropped
    | Forget  // the handle is detached

  predicate Enabled(s: Cb, e: Step) {
    !s.aborted &&
    match e
    case Fire => s.registered
    case Return => s.frames > 0
    case Drop => s.handleHeld
    case Forget => s.handleHeld
  }

  /** Remove the VPI registration and reclaim the simulator's reference. */
  function ReleaseC(s: Cb): Cb {
    s.(released := true, registered := false, removals := s.removals + 1,
       cHeld := false, cReleases := s.cReleases + 1, strong := s.strong - 1)
  }

  function Next(s: Cb, e: Step): Cb
    requires Enabled(s, e)
  {
    match e
    case Fire =>
      var t := s.(strong := s.strong + 1, frames := s.frames + 1);
      (match s.kind
       case OneShot =>
         if s.released then t
         else ReleaseC(t).(closure := false, runs := if s.closure then s.runs + 1 else s.runs)
       case Recurring =>
         if s.borrowed then t.(aborted := true)
         else t.(borrowed := true, runs := if s.closure then s.runs + 1 else s.runs))
    case Return => s.(frames := s.frames - 1, strong := s.strong - 1, borrowed := false)
    case Drop =>
      var t := if s.released then s else ReleaseC(s);
      t.(handleHeld := false, strong := t.strong - 1)
    case Forget => s.(handleHeld := false, strong := s.strong - 1)
  }

  ghost predicate IsRun(s: Cb, run: seq<Step>)
    decreases |run|
  {
    run == [] || (Enabled(s, run[0]) && IsRun(Next(s, run[0]), run[1..]))
  }

  ghost function After(s: Cb, run: seq<Step>): Cb
    requires IsRun(s, run)
    decreases |run|
  {
    if run == [] then s else After(Next(s, run[0]), run[1..])
  }

  function One(b: bool): nat { if b then 1 else 0 }

  ghost predicate Inv(s: Cb) {
    && s.strong == One(s.handleHeld) + One(s.cHeld) + s.frames
    && s.cHeld == s.registered == !s.released
    && s.cReleases == s.removals == One(s.released)
    && (s.kind == OneShot ==>
          && s.frames <= 1 && s.runs == One(!s.closure) && (!s.closure ==> s.released)
          && (s.frames > 0 ==> s.released) && !s.borrowed && !s.aborted)
    && (s.kind == Recurring ==> s.closure && (!s.aborted ==> s.borrowed == (s.frames > 0) && s.frames <= 1))
  }

  lemma {:induction false} RunKeepsInv(s: Cb, run: seq<Step>)
    requires Inv(s) && IsRun(s, run)
    ensures Inv(After(s, run))
    decreases |run|
  {
    if run != [] { RunKeepsInv(Next(s, run[0]), run[1..]); }
  }

  /**
   In every run of one registration: the strong count is the live handle plus the
   simulator's unreleased reference plus the trampolines in progress; the simulator's
   reference and the registration are each released at most once; a one-shot closure runs
   at most once; and whatever step comes next finds the shared state not yet freed.
   */
  lemma CallbackOwnership(kind: Kind, run: seq<Step>, e: Step)
    requires IsRun(Registered(kind), run)
    ensures var s := After(Registered(kind), run);
            && s.strong == One(s.handleHeld) + One(s.cHeld) + s.frames
            && s.cReleases <= 1 && s.removals <= 1 && s.cReleases == s.removals
            && (s.cHeld <==> s.registered)
            && (s.kind == OneShot ==> s.runs <= 1)
            && (Enabled(s, e) ==> s.strong > 0)
  {
    RunKeepsInv(Registered(kind), run);
  }

  lemma {:induction false} KindIsFixed(s: Cb, run: seq<Step>)
    requires IsRun(s, run)
    ensures After(s, run).kind == s.kind
    decreases |run|
  {
    if run != [] { KindIsFixed(Next(s, run[0]), run[1..]); }
  }

  /**
   The shared state is freed exactly when the handle is gone, the simulator's reference is
   reclaimed and no trampoline runs; then nothing can happen any more.
   */
  lemma FreedExactlyWhenUnreachable(kind: Kind, run: seq<Step>)
    requires IsRun(Registered(kind), run)
    ensures var s := After(Registered(kind), run);
            && (s.strong == 0 <==> !s.handleHeld && s.released && s.frames == 0)
            && (!s.aborted ==> (s.strong == 0 <==> forall e :: !Enabled(s, e)))
  {
    RunKeepsInv(Registered(kind), run);
    var s := After(Registered(kind), run);
    if !s.aborted && s.strong > 0 {
      assert Enabled(s, Drop) || Enabled(s, Fire) || Enabled(s, Return);
    }
  }

  /** Only a recurring callback fired again from inside its own closure aborts. */
  lemma OnlyReentryAborts(kind: Kind, run: seq<Step>, e: Step)
    requires IsRun(Registered(kind), run)
    ensures var s := After(Registered(kind), run);
            Enabled(s, e) ==> (Next(s, e).aborted <==> kind == Recurring && e == Fire && s.frames > 0)
  {
    RunKeepsInv(Registered(kind), run);
    KindIsFixed(Registered(kind), run);
  }

  /** A detached one-shot cleans up after itself: once fired and returned it is freed. */
  lemma DetachedOneShotSelfCleans(run: seq<Step>)
    requires IsRun(Registered(OneShot), run)
    ensures var s := After(Registered(OneShot), run);
            !s.handleHeld && s.runs == 1 && s.frames == 0 ==> s.strong == 0
  {
    RunKeepsInv(Registered(OneShot), run);
    KindIsFixed(Registered(OneShot), run);
  }

  /** A detached recurring callback stays registered and alive for the rest of the simulation. */
  lemma {:induction false} DetachedRecurringLives(s: Cb, run: seq<Step>)
    requires Inv(s) && s.kind == Recurring && !s.handleHeld && !s.released && IsRun(s, run)
    ensures After(s, run).registered && After(s, run).strong > 0
    decreases |run|
  {
    if run != [] { DetachedRecurringLives(Next(s, run[0]), run[1..]); }
  }

  /**
   In every run, dropping the handle from inside the running closure does not free the
   state under it: it is freed by the trampoline's own return, after which nothing happens.
   */
  lemma DropInsideClosureIsSafe(kind: Kind, run: seq<Step>)
    requires IsRun(Registered(kind), run)
    ensures var s := After(Registered(kind), run);
            s.frames > 0 && Enabled(s, Drop) ==>
              var t := Next(s, Drop);
              && t.strong > 0 && !t.registered && Enabled(t, Return)
              && var u := Next(t, Return); u.strong == 0 && forall e :: !Enabled(u, e)
  {
    RunKeepsInv(Registered(kind), run);
  }

  /** After a first firing a one-shot cannot fire again; a recurring callback can, and that aborts. */
  lemma SecondFiring(kind: Kind)
    ensures var s := Next(Registered(kind), Fire);
            && s.frames == 1 && (Enabled(s, Fire) <==> kind == Recurring)
            && (kind == Recurring ==> Next(s, Fire).aborted)
    ensures IsRun(Registered(kind), [Fire]) && After(Registered(kind), [Fire]) == Next(Registered(kind), Fire)
  {
    var s, rest := Next(Registered(kind), Fire), [Fire][1..];
    assert rest == [];
    assert IsRun(s, rest) && After(s, rest) == s;
  }

  // ---------------------------------------------------------------------------
  // What a run of steps amounts to
  // ---------------------------------------------------------------------------

  function Fires(run: seq<Step>): nat {
    if run == [] then 0 else One(run[0] == Fire) + Fires(run[1..])
  }

  lemma {:induction false} FiresCounted(s: Cb, run: seq<Step>)
    requires Inv(s) && IsRun(s, run)
    ensures var t := After(s, run);
            if s.kind == Recurring then t.runs + One(t.aborted) == s.runs + One(s.aborted) + Fires(run)
            else t.runs == if Fires(run) > 0 then 1 else s.runs
    decreases |run|
  {
    if run != [] {
      FiresCounted(Next(s, run[0]), run[1..]);
    }
  }

  /**
   Every firing runs the closure: in every run a recurring closure has run once for each
   firing but the one that aborted, and a one-shot has run once if it fired and not otherwise.
   */
  lemma EveryFiringRuns(kind: Kind, run: seq<Step>)
    requires IsRun(Registered(kind), run)
    ensures var s := After(Registered(kind), run);
            s.runs == if kind == Recurring then Fires(run) - One(s.aborted) else if Fires(run) > 0 then 1 else 0
  {
    FiresCounted(Registered(kind), run);
  }

  lemma {:induction false} RegisteredUntil(s: Cb, run: seq<Step>)
    requires Inv(s) && IsRun(s, run)
    ensures After(s, run).registered <==>
            s.registered && Drop !in run && (s.kind == OneShot ==> Fire !in run)
    decreases |run|
  {
    if run != [] {
      assert run == [run[0]] + run[1..];
      RegisteredUntil(Next(s, run[0]), run[1..]);
    }
  }

  /**
   A callback is registered exactly as long as its handle has not been dropped and, for a
   one-shot, it has not fired; detaching the handle does not end it.
   */
  lemma RegisteredIff(kind: Kind, run: seq<Step>)
    requires IsRun(Registered(kind), run)
    ensures After(Registered(kind), run).registered <==> Drop !in run && (kind == OneShot ==> Fire !in run)
  {
    RegisteredUntil(Registered(kind), run);
  }

  // ---------------------------------------------------------------------------
  // The mutable registration
  // ---------------------------------------------------------------------------

  /** `CbShared` with its `Rc` count, the handle's fields, and the simulator's view of it. */
  class Registration {
    const kind: Kind
    var released: bool
    var closure: bool
    var borrowed: bool
    var strong: int
    var handleHeld: bool
    ghost var cHeld: bool
    ghost var registered: bool
    ghost var frames: nat
    ghost var aborted: bool
    ghost var cReleases: nat
    ghost var removals: nat
    ghost var runs: nat

    ghost function View(): Cb
      reads this
    {
      Cb(kind, released, closure, borrowed, strong, handleHeld, cHeld, registered, frames, aborted,
         cReleases, removals, runs)
    }

    ghost predicate Valid()
      reads this
    {
      Inv(View())
    }

    constructor (kind: Kind)
      ensures Valid() && View() == Registered(kind)
    {
      this.kind := kind;
      released, closure, borrowed := false, true, false;
      strong := 1;           // the handle's own reference
      handleHeld := true;
      strong := 2;           // the clone turned into the raw pointer
      cHeld, registered, frames, aborted := true, true, 0, false;
      cReleases, removals, runs := 0, 0, 0;
    }

    /** `vpi_remove_cb` and reclaiming the raw reference. */
    method ReclaimC()
      modifies this
      ensures View() == ReleaseC(old(View()))
    {
      released := true;
      registered, removals := false, removals + 1;
      strong := strong - 1;
      cHeld, cReleases := false, cReleases + 1;
    }

    /** The trampoline up to the user closure; `call` says whether the closure is run. */
    method Trampoline() returns (call: bool)
      requires Valid() && Enabled(View(), Fire)
      modifies this
      ensures Valid() && View() == Next(old(View()), Fire)
      ensures call <==> kind == OneShot || !old(borrowed)
      ensures runs == old(runs) + One(call) && strong > 0
    {
      strong, frames := strong + 1, frames + 1;
      match kind {
        case OneShot =>
          call := false;
          if !released {
            call := closure;
            closure := false;
            ReclaimC();
            if call { runs := runs + 1; }
          }
        case Recurring =>
          if borrowed {
            aborted := true;
            return false;
          }
          borrowed := true;
          call := closure;
          if call { runs := runs + 1; }
      }
    }

    method TrampolineReturn()
      requires Valid() && Enabled(View(), Return)
      modifies this
      ensures Valid() && View() == Next(old(View()), Return)
    {
      borrowed := false;
      strong, frames := strong - 1, frames - 1;
    }

    method DropHandle()
      requires Valid() && Enabled(View(), Drop)
      modifies this
      ensures Valid() && View() == Next(old(View()), Drop)
    {
      if !released { ReclaimC(); }
      handleHeld := false;
      strong := strong - 1;
    }

    method ForgetHandle()
      requires Valid() && Enabled(View(), Forget)
      modifies this
      ensures Valid() && View() == Next(old(View()), Forget)
    {
      handleHeld := false;
      strong := strong - 1;
    }
  }
}
