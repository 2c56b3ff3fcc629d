/** The lock around a namespace: a semaphore, the `locked` flag in the pool, a
    second semaphore that serialises repairs, and processes that may die between
    any two steps.  A timed wait may time out only while the token belongs to a
    dead process; without that assumption, or with an unlock that no lock
    precedes, exclusion is lost, as the last lemmas show. */
module LockProtocol {
  import opened Tables

  type Pid = nat

  /** How far a process is inside `lmc_lock_shm_region` and `lmc_unlock_shm_region`. */
  datatype Phase = Out | Got | Flagged | Cleared

  /** `actsFor`: a forced repairer and the dead holder whose lock it is repairing. */
  datatype Proc = Proc(alive: bool, phase: Phase, check: bool, actsFor: Option<Pid>)

  datatype World = World(sem: nat, locked: nat, checkSem: nat, procs: map<Pid, Proc>)

  datatype Event =
    | Start(p: Pid)           // a process attaches
    | Die(p: Pid)
    | Obtain(p: Pid)          // lmc_lock_obtain, or the wait in lmc_is_lock_working
    | GiveUp(p: Pid)          // posting without having set the flag
    | SetFlag(p: Pid)
    | ClearFlag(p: Pid)
    | Post(p: Pid)
    | TakeCheck(p: Pid)       // lmc_lock_obtain_mandatory on the check semaphore
    | DropCheck(p: Pid)
    | Force(p: Pid, d: Pid)   // lmc_is_lock_working timed out: the repair is forced
    | Repair(p: Pid)          // redo, memory check, md->locked = 0
    | RepairFails(p: Pid)
    | ForcedPost(p: Pid)      // sem_getvalue, and sem_post if it is 0

  ghost predicate Alive(w: World, p: Pid) {
    p in w.procs && w.procs[p].alive
  }

  ghost function With(w: World, p: Pid, q: Proc): World {
    w.(procs := w.procs[p := q])
  }

  ghost predicate Step(w: World, e: Event, w': World) {
    match e
    case Start(p) => p !in w.procs && w' == With(w, p, Proc(true, Out, false, None))
    case Die(p) => Alive(w, p) && w' == With(w, p, w.procs[p].(alive := false, actsFor := None))
    case Obtain(p) =>
      && Alive(w, p) && w.procs[p].phase == Out && w.procs[p].actsFor == None && w.sem > 0
      && w' == With(w.(sem := w.sem - 1), p, w.procs[p].(phase := Got))
    case GiveUp(p) =>
      && Alive(w, p) && w.procs[p].phase == Got
      && w' == With(w.(sem := w.sem + 1), p, w.procs[p].(phase := Out))
    case SetFlag(p) =>
      && Alive(w, p) && w.procs[p].phase == Got
      && w' == (if w.locked != 0 then With(w.(sem := w.sem + 1), p, w.procs[p].(phase := Out))
                else With(w.(locked := 1), p, w.procs[p].(phase := Flagged)))
    case ClearFlag(p) =>
      && Alive(w, p) && w.procs[p].phase == Flagged
      && w' == With(w.(locked := if w.locked != 1 then w.locked else 0), p, w.procs[p].(phase := Cleared))
    case Post(p) =>
      && Alive(w, p) && w.procs[p].phase == Cleared
      && w' == With(w.(sem := w.sem + 1), p, w.procs[p].(phase := Out))
    case TakeCheck(p) =>
      && Alive(w, p) && w.procs[p].phase == Out && !w.procs[p].check && w.checkSem > 0
      && w' == With(w.(checkSem := w.checkSem - 1), p, w.procs[p].(check := true))
    case DropCheck(p) =>
      && Alive(w, p) && w.procs[p].check && w.procs[p].actsFor == None
      && w' == With(w.(checkSem := w.checkSem + 1), p, w.procs[p].(check := false))
    case Force(p, d) =>
      && Alive(w, p) && w.procs[p].check && w.procs[p].phase == Out && w.procs[p].actsFor == None && w.sem == 0
      && DeadOwner(w, d)  // the assumption
      && w' == With(w, p, w.procs[p].(actsFor := Some(d)))
    case Repair(p) =>
      && Alive(w, p) && w.procs[p].actsFor.Some? && w.procs[p].actsFor.value in w.procs && w.locked != 0
      && w' == With(w.(locked := 0), w.procs[p].actsFor.value, w.procs[w.procs[p].actsFor.value].(phase := Cleared))
    case RepairFails(p) =>
      && Alive(w, p) && w.procs[p].actsFor.Some? && w.locked != 0
      && w' == With(w, p, w.procs[p].(actsFor := None))
    case ForcedPost(p) =>
      && Alive(w, p) && w.procs[p].actsFor.Some? && w.procs[p].actsFor.value in w.procs && w.locked == 0
      && w' == Released(w.(sem := if w.sem == 0 then w.sem + 1 else w.sem), p, w.procs[p].actsFor.value)
  }

  /** The forced repairer `p` is done and the dead holder `d` owns nothing any more. */
  ghost function Released(w: World, p: Pid, d: Pid): World
    requires p in w.procs && d in w.procs
  {
    w.(procs := w.procs[d := w.procs[d].(phase := Out)][p := w.procs[p].(actsFor := None)])
  }

  /** A dead process that took the semaphore and has not posted it. */
  ghost predicate DeadOwner(w: World, d: Pid) {
    d in w.procs && !w.procs[d].alive && w.procs[d].phase != Out
  }

  /* ---- The invariant ---- */

  /** Everyone, dead or alive, who took the semaphore and has not posted it. */
  ghost function Owners(w: World): set<Pid> {
    set p | p in w.procs && w.procs[p].phase != Out
  }

  ghost function Checkers(w: World): set<Pid> {
    set p | p in w.procs && w.procs[p].check
  }

  ghost predicate Inv(w: World) {
    && w.sem + |Owners(w)| == 1
    && w.checkSem + |Checkers(w)| == 1
    && w.locked <= 1
    && (w.locked == 1 <==> exists p :: p in w.procs && w.procs[p].phase == Flagged)
    && (forall p :: p in w.procs && w.procs[p].actsFor.Some? ==> ActsRightly(w, p))
  }

  /** A forced repairer holds the check semaphore and acts for a dead owner. */
  ghost predicate ActsRightly(w: World, p: Pid)
    requires p in w.procs && w.procs[p].actsFor.Some?
  {
    var d := w.procs[p].actsFor.value;
    && w.procs[p].alive && w.procs[p].check && w.procs[p].phase == Out
    && d in w.procs && !w.procs[d].alive && w.procs[d].phase != Out
  }

  ghost function Initial(): World {
    World(1, 0, 1, map[])
  }

  lemma InitialInv()
    ensures Inv(Initial())
  {
    assert Owners(Initial()) == {} && Checkers(Initial()) == {};
  }

  /** Two members of a set of at most one are the same. */
  lemma OnlyOne(s: set<Pid>, p: Pid, q: Pid)
    requires |s| <= 1 && p in s && q in s
    ensures p == q
  {
    assert {p} <= s;
    assert |s - {p}| == |s| - 1;
  }

  lemma SoleOwner(w: World, p: Pid)
    requires Inv(w) && p in w.procs && w.procs[p].phase != Out
    ensures w.sem == 0 && Owners(w) == {p} && forall q :: q in w.procs && w.procs[q].phase != Out ==> q == p
  {
    assert p in Owners(w);
    forall q | q in Owners(w) ensures q == p { OnlyOne(Owners(w), p, q); }
    assert Owners(w) == {p};
    forall q | q in w.procs && w.procs[q].phase != Out ensures q == p { assert q in Owners(w); }
  }

  lemma SoleChecker(w: World, p: Pid)
    requires Inv(w) && p in w.procs && w.procs[p].check
    ensures w.checkSem == 0 && Checkers(w) == {p} && forall q :: q in w.procs && w.procs[q].check ==> q == p
  {
    assert p in Checkers(w);
    forall q | q in Checkers(w) ensures q == p { OnlyOne(Checkers(w), p, q); }
    assert Checkers(w) == {p};
    forall q | q in w.procs && w.procs[q].check ensures q == p { assert q in Checkers(w); }
  }

  /* ---- Every step keeps it ---- */

  /** Changing process `p` alone, without its death or its actsFor, when it acts for no one. */
  lemma OwnersWith(w: World, p: Pid, q: Proc, w': World)
    requires w'.procs == w.procs[p := q]
    ensures Owners(w') == if q.phase != Out then Owners(w) + {p} else Owners(w) - {p}
    ensures Checkers(w') == if q.check then Checkers(w) + {p} else Checkers(w) - {p}
    ensures p in Owners(w) <==> p in w.procs && w.procs[p].phase != Out
    ensures p in Checkers(w) <==> p in w.procs && w.procs[p].check
  {
  }

  /** The flag still tells whether some owner has set it. */
  lemma FlagFrame(w: World, p: Pid, q: Proc, w': World)
    requires Inv(w) && w'.procs == w.procs[p := q] && w'.locked == w.locked
    requires p in w.procs ==> (w.procs[p].phase == Flagged <==> q.phase == Flagged)
    requires p !in w.procs ==> q.phase == Out
    ensures w'.locked <= 1 && (w'.locked == 1 <==> exists x :: x in w'.procs && w'.procs[x].phase == Flagged)
  {
    if x :| x in w.procs && w.procs[x].phase == Flagged {
      assert x in w'.procs && w'.procs[x].phase == Flagged;
    }
  }

  lemma StartInv(w: World, p: Pid, w': World)
    requires Inv(w) && Step(w, Start(p), w')
    ensures Inv(w')
  {
    hide Owners, Checkers;
    var q := Proc(true, Out, false, None);
    OwnersWith(w, p, q, w');
    FlagFrame(w, p, q, w');
  }

  lemma DieInv(w: World, p: Pid, w': World)
    requires Inv(w) && Step(w, Die(p), w')
    ensures Inv(w')
  {
    hide Owners, Checkers;
    var q := w.procs[p].(alive := false, actsFor := None);
    OwnersWith(w, p, q, w');
    FlagFrame(w, p, q, w');
    forall x | x in w'.procs && w'.procs[x].actsFor.Some?
      ensures ActsRightly(w', x)
    {
      assert x != p && ActsRightly(w, x);
    }
  }

  lemma ObtainInv(w: World, p: Pid, w': World)
    requires Inv(w) && Step(w, Obtain(p), w')
    ensures Inv(w')
  {
    hide Owners, Checkers;
    var q := w.procs[p].(phase := Got);
    OwnersWith(w, p, q, w');
    FlagFrame(w, p, q, w');
    NoOneActs(w);
  }

  /** With the semaphore free no repair is forced. */
  lemma NoOneActs(w: World)
    requires Inv(w)
    ensures w.sem > 0 ==> forall p :: p in w.procs ==> w.procs[p].actsFor == None
  {
    forall p | p in w.procs && w.procs[p].actsFor.Some?
      ensures w.sem == 0
    {
      assert ActsRightly(w, p);
      SoleOwner(w, w.procs[p].actsFor.value);
    }
  }

  /** While a live process owns the token no repair is forced. */
  lemma LiveOwner(w: World, p: Pid)
    requires Inv(w) && Alive(w, p) && w.procs[p].phase != Out
    ensures forall q :: q in w.procs ==> w.procs[q].actsFor == None
  {
    SoleOwner(w, p);
    forall q | q in w.procs
      ensures w.procs[q].actsFor == None
    {
      assert w.procs[q].actsFor.Some? ==> ActsRightly(w, q);
    }
  }

  lemma GiveUpInv(w: World, p: Pid, w': World)
    requires Inv(w) && Step(w, GiveUp(p), w')
    ensures Inv(w')
  {
    hide Owners, Checkers;
    var q := w.procs[p].(phase := Out);
    OwnersWith(w, p, q, w');
    FlagFrame(w, p, q, w');
    LiveOwner(w, p);
  }

  lemma PostInv(w: World, p: Pid, w': World)
    requires Inv(w) && Step(w, Post(p), w')
    ensures Inv(w')
  {
    hide Owners, Checkers;
    var q := w.procs[p].(phase := Out);
    OwnersWith(w, p, q, w');
    FlagFrame(w, p, q, w');
    LiveOwner(w, p);
  }

  /** The flag is never found set by the process that holds the semaphore. */
  lemma GotUnflagged(w: World, p: Pid)
    requires Inv(w) && p in w.procs && w.procs[p].phase in {Got, Cleared}
    ensures w.locked == 0
  {
    SoleOwner(w, p);
  }

  lemma SetFlagInv(w: World, p: Pid, w': World)
    requires Inv(w) && Step(w, SetFlag(p), w')
    ensures Inv(w') && w'.procs[p].phase == Flagged
  {
    hide Owners, Checkers;
    GotUnflagged(w, p);
    var q := w.procs[p].(phase := Flagged);
    OwnersWith(w, p, q, w');
    LiveOwner(w, p);
    assert w'.procs[p].phase == Flagged;
  }

  lemma ClearFlagInv(w: World, p: Pid, w': World)
    requires Inv(w) && Step(w, ClearFlag(p), w')
    ensures Inv(w') && w.locked == 1 && w'.locked == 0
  {
    hide Owners, Checkers;
    var q := w.procs[p].(phase := Cleared);
    OwnersWith(w, p, q, w');
    LiveOwner(w, p);
    SoleOwner(w, p);
    assert w.procs[p].phase == Flagged;
  }

  /** Changing only whether `p` holds the check semaphore. */
  lemma ActsKept(w: World, p: Pid, check: bool, w': World)
    requires Inv(w) && p in w.procs && w'.procs == w.procs[p := w.procs[p].(check := check)]
    requires check || w.procs[p].actsFor == None
    ensures forall x :: x in w'.procs && w'.procs[x].actsFor.Some? ==> ActsRightly(w', x)
  {
    hide Owners, Checkers;
    forall x | x in w'.procs && w'.procs[x].actsFor.Some?
      ensures ActsRightly(w', x)
    {
      assert ActsRightly(w, x);
    }
  }

  lemma TakeCheckInv(w: World, p: Pid, w': World)
    requires Inv(w) && Step(w, TakeCheck(p), w')
    ensures Inv(w')
  {
    hide Owners, Checkers, ActsRightly;
    var q := w.procs[p].(check := true);
    OwnersWith(w, p, q, w');
    FlagFrame(w, p, q, w');
    ActsKept(w, p, true, w');
  }

  lemma DropCheckInv(w: World, p: Pid, w': World)
    requires Inv(w) && Step(w, DropCheck(p), w')
    ensures Inv(w')
  {
    hide Owners, Checkers, ActsRightly;
    var q := w.procs[p].(check := false);
    OwnersWith(w, p, q, w');
    FlagFrame(w, p, q, w');
    ActsKept(w, p, false, w');
    SoleChecker(w, p);
  }

  lemma ForceInv(w: World, p: Pid, d: Pid, w': World)
    requires Inv(w) && Step(w, Force(p, d), w')
    ensures Inv(w')
  {
    hide Owners, Checkers;
    var q := w.procs[p].(actsFor := Some(d));
    OwnersWith(w, p, q, w');
    FlagFrame(w, p, q, w');
    forall x | x in w'.procs && w'.procs[x].actsFor.Some?
      ensures ActsRightly(w', x)
    {
      if x != p { assert ActsRightly(w, x); }
    }
  }

  lemma RepairInv(w: World, p: Pid, w': World)
    requires Inv(w) && Step(w, Repair(p), w')
    ensures Inv(w')
  {
    hide Owners, Checkers;
    var d := w.procs[p].actsFor.value;
    assert ActsRightly(w, p);
    var q := w.procs[d].(phase := Cleared);
    OwnersWith(w, d, q, w');
    SoleOwner(w, d);
    forall x | x in w'.procs && w'.procs[x].actsFor.Some?
      ensures ActsRightly(w', x)
    {
      assert ActsRightly(w, x);
    }
  }

  lemma RepairFailsInv(w: World, p: Pid, w': World)
    requires Inv(w) && Step(w, RepairFails(p), w')
    ensures Inv(w')
  {
    hide Owners, Checkers;
    var q := w.procs[p].(actsFor := None);
    OwnersWith(w, p, q, w');
    FlagFrame(w, p, q, w');
    forall x | x in w'.procs && w'.procs[x].actsFor.Some?
      ensures ActsRightly(w', x)
    {
      assert ActsRightly(w, x);
    }
  }

  lemma ForcedPostInv(w: World, p: Pid, w': World)
    requires Inv(w) && Step(w, ForcedPost(p), w')
    ensures Inv(w') && w.sem == 0 && w'.sem == 1
  {
    hide Owners, Checkers;
    var d := w.procs[p].actsFor.value;
    assert ActsRightly(w, p);
    SoleOwner(w, d);
    SoleChecker(w, p);
    var w1 := w.(procs := w.procs[d := w.procs[d].(phase := Out)]);
    OwnersWith(w, d, w.procs[d].(phase := Out), w1);
    OwnersWith(w1, p, w.procs[p].(actsFor := None), w');
    forall x | x in w'.procs
      ensures w'.procs[x].actsFor == None
    {
      assert w.procs[x].actsFor.Some? ==> ActsRightly(w, x);
    }
  }

  lemma StepInv(w: World, e: Event, w': World)
    requires Inv(w) && Step(w, e, w')
    ensures Inv(w')
  {
    hide Inv, Step;
    match e
    case Start(p) => StartInv(w, p, w');
    case Die(p) => DieInv(w, p, w');
    case Obtain(p) => ObtainInv(w, p, w');
    case GiveUp(p) => GiveUpInv(w, p, w');
    case SetFlag(p) => SetFlagInv(w, p, w');
    case ClearFlag(p) => ClearFlagInv(w, p, w');
    case Post(p) => PostInv(w, p, w');
    case TakeCheck(p) => TakeCheckInv(w, p, w');
    case DropCheck(p) => DropCheckInv(w, p, w');
    case Force(p, d) => ForceInv(w, p, d, w');
    case Repair(p) => RepairInv(w, p, w');
    case RepairFails(p) => RepairFailsInv(w, p, w');
    case ForcedPost(p) => ForcedPostInv(w, p, w');
  }

  /* ---- Whole runs ---- */

  ghost predicate IsRun(ws: seq<World>, es: seq<Event>) {
    && |ws| == |es| + 1 && ws[0] == Initial()
    && forall i :: 0 <= i < |es| ==> Step(ws[i], es[i], ws[i + 1])
  }

  /** Who may touch the pool: a live process between setting and clearing the flag,
      and a forced repairer while the flag of its dead holder is still set. */
  ghost predicate UsesPool(w: World, p: Pid) {
    && Alive(w, p)
    && (w.procs[p].phase == Flagged || (w.procs[p].actsFor.Some? && w.locked != 0))
  }

  ghost predicate Safe(w: World) {
    && w.sem + |Owners(w)| == 1
    && (w.sem > 0 ==> w.locked == 0)
    && (forall p, q :: UsesPool(w, p) && UsesPool(w, q) ==> p == q)
    // neither lmc_set_lock_flag nor lmc_release_lock_flag ever fails
    && (forall p :: Alive(w, p) && w.procs[p].phase == Got ==> w.locked == 0)
    && (forall p :: Alive(w, p) && w.procs[p].phase == Flagged ==> w.locked == 1)
  }

  lemma InvSafe(w: World)
    requires Inv(w)
    ensures Safe(w)
  {
    hide Owners, Checkers;
    forall p | p in w.procs && w.procs[p].phase == Got
      ensures w.locked == 0
    {
      GotUnflagged(w, p);
    }
    if p :| p in w.procs && w.procs[p].phase == Flagged { SoleOwner(w, p); }
    forall p, q | UsesPool(w, p) && UsesPool(w, q)
      ensures p == q
    {
      UserIs(w, p);
      UserIs(w, q);
    }
  }

  /** The one user of the pool is the token's owner, or the repairer of its dead owner. */
  lemma UserIs(w: World, p: Pid)
    requires Inv(w) && UsesPool(w, p)
    ensures forall q :: UsesPool(w, q) ==> q == p
  {
    hide Owners, Checkers;
    forall q | UsesPool(w, q)
      ensures q == p
    {
      if w.procs[p].phase != Out {
        LiveOwner(w, p);
        SoleOwner(w, p);
      } else {
        assert ActsRightly(w, p);
        SoleOwner(w, w.procs[p].actsFor.value);
        SoleChecker(w, p);
        assert w.procs[q].actsFor.Some? ==> ActsRightly(w, q);
      }
    }
  }

  /** Over all runs, whoever dies and wherever. */
  lemma {:induction false} RunSafe(ws: seq<World>, es: seq<Event>, i: nat)
    requires IsRun(ws, es) && i < |ws|
    ensures Inv(ws[i]) && Safe(ws[i])
  {
    hide Inv, Safe, Step;
    if i == 0 {
      InitialInv();
    } else {
      RunSafe(ws, es, i - 1);
      StepInv(ws[i - 1], es[i - 1], ws[i]);
    }
    InvSafe(ws[i]);
  }

  /** After a death anywhere in the protocol a forced repair can always go through,
      and it ends with a free semaphore and a clear flag. */
  lemma RepairFreesToken(w: World, p: Pid, d: Pid) returns (w1: World, w2: World, w3: World)
    requires Inv(w) && Alive(w, p) && w.procs[p].check && w.procs[p].phase == Out && w.procs[p].actsFor == None
    requires d in w.procs && !w.procs[d].alive && w.procs[d].phase != Out
    ensures Step(w, Force(p, d), w1) && (w2 == w1 || Step(w1, Repair(p), w2)) && Step(w2, ForcedPost(p), w3)
    ensures Inv(w3) && w3.sem == 1 && w3.locked == 0 && Owners(w3) == {}
  {
    SoleOwner(w, d);
    w1 := With(w, p, w.procs[p].(actsFor := Some(d)));
    ForceInv(w, p, d, w1);
    if w1.locked != 0 {
      w2 := With(w1.(locked := 0), d, w1.procs[d].(phase := Cleared));
      assert Step(w1, Repair(p), w2);
      RepairInv(w1, p, w2);
    } else {
      w2 := w1;
    }
    w3 := Released(w2.(sem := 1), p, d);
    SoleOwner(w2, d);
    assert Step(w2, ForcedPost(p), w3);
    ForcedPostInv(w2, p, w3);
    InvSafe(w3);
  }

  /* ---- Deaths ---- */

  /** The forced post of a repairer that acts for `p`. */
  ghost predicate PostsFor(w: World, e: Event, p: Pid) {
    e.ForcedPost? && e.p in w.procs && w.procs[e.p].actsFor == Some(p)
  }

  /** The repair that a repairer makes for `p`. */
  ghost predicate RepairsFor(w: World, e: Event, p: Pid) {
    e.Repair? && e.p in w.procs && w.procs[e.p].actsFor == Some(p)
  }

  /** The token is with the dead `p`, and only a repairer acting for it uses the pool. */
  ghost predicate HeldByDead(w: World, p: Pid) {
    && DeadOwner(w, p) && w.sem == 0
    && (forall q :: Alive(w, q) ==> w.procs[q].phase == Out)
    && (forall q :: UsesPool(w, q) ==> w.procs[q].actsFor == Some(p))
  }

  lemma OwnerHolds(w: World, p: Pid)
    requires Inv(w) && DeadOwner(w, p)
    ensures HeldByDead(w, p)
  {
    hide Owners, Checkers;
    SoleOwner(w, p);
    forall q | UsesPool(w, q)
      ensures w.procs[q].actsFor == Some(p)
    {
      assert w.procs[q].phase == Out && ActsRightly(w, q);
    }
  }

  lemma OwnerStays(w: World, e: Event, w': World, p: Pid)
    requires Inv(w) && Step(w, e, w') && DeadOwner(w, p) && !PostsFor(w, e, p)
    ensures DeadOwner(w', p)
    ensures w.procs[p].phase == Flagged && !RepairsFor(w, e, p) ==> w'.procs[p].phase == Flagged
  {
    hide Owners, Checkers;
    SoleOwner(w, p);
    forall q | q in w.procs && w.procs[q].actsFor.Some?
      ensures w.procs[q].actsFor == Some(p)
    {
      assert ActsRightly(w, q);
    }
  }

  /** A dead owner keeps the token until a repairer posts it for it, however often a repair is refused. */
  lemma {:induction false} TokenStays(ws: seq<World>, es: seq<Event>, i: nat, j: nat, p: Pid)
    requires IsRun(ws, es) && i <= j < |ws| && DeadOwner(ws[i], p)
    requires forall k :: i <= k < j ==> !PostsFor(ws[k], es[k], p)
    ensures HeldByDead(ws[j], p)
    decreases j
  {
    hide Inv, Safe, Step, HeldByDead, PostsFor;
    RunSafe(ws, es, j);
    if i < j {
      TokenStays(ws, es, i, j - 1, p);
      RunSafe(ws, es, j - 1);
      assert DeadOwner(ws[j - 1], p) by { HeldIs(ws[j - 1], p); }
      OwnerStays(ws[j - 1], es[j - 1], ws[j], p);
    }
    OwnerHolds(ws[j], p);
  }

  lemma HeldIs(w: World, p: Pid)
    requires HeldByDead(w, p)
    ensures DeadOwner(w, p)
  {
  }

  /** A process that dies with the token keeps it, and how far it had got. */
  lemma DeathTakesToken(w: World, p: Pid, w': World)
    requires Inv(w) && Step(w, Die(p), w') && w.procs[p].phase != Out
    ensures DeadOwner(w', p) && w'.procs[p].phase == w.procs[p].phase && w'.sem == w.sem && w'.locked == w.locked
  {
  }

  /** Over all runs: from the death of a process that owns the token on, nobody obtains
      the semaphore or uses the pool, but for repairers acting for it, until one of
      them posts the semaphore for it. */
  lemma DeathBlocks(ws: seq<World>, es: seq<Event>, i: nat, j: nat, p: Pid)
    requires IsRun(ws, es) && i < j < |ws| && es[i] == Die(p)
    requires p in ws[i].procs && ws[i].procs[p].phase != Out
    requires forall k :: i < k < j ==> !PostsFor(ws[k], es[k], p)
    ensures HeldByDead(ws[j], p)
  {
    hide Inv, Safe, Step, HeldByDead, PostsFor;
    RunSafe(ws, es, i);
    DeathTakesToken(ws[i], p, ws[i + 1]);
    TokenStays(ws, es, i + 1, j, p);
  }

  /** And if it dies between setting and clearing the flag, the flag stays set and the
      semaphore is not posted before the pool has been repaired for it. */
  lemma {:induction false} TornUntilRepaired(ws: seq<World>, es: seq<Event>, i: nat, j: nat, p: Pid)
    requires IsRun(ws, es) && i < j < |ws| && es[i] == Die(p)
    requires p in ws[i].procs && ws[i].procs[p].phase == Flagged
    requires forall k :: i < k < j ==> !RepairsFor(ws[k], es[k], p)
    ensures HeldByDead(ws[j], p) && ws[j].procs[p].phase == Flagged && ws[j].locked == 1
    ensures j < |es| ==> !PostsFor(ws[j], es[j], p)
    decreases j
  {
    hide Inv, Safe, Step, HeldByDead, RepairsFor, PostsFor;
    RunSafe(ws, es, j - 1);
    if i == j - 1 {
      DeathTakesToken(ws[i], p, ws[j]);
    } else {
      TornUntilRepaired(ws, es, i, j - 1, p);
      assert DeadOwner(ws[j - 1], p) by { HeldIs(ws[j - 1], p); }
      OwnerStays(ws[j - 1], es[j - 1], ws[j], p);
    }
    RunSafe(ws, es, j);
    OwnerHolds(ws[j], p);
    FlagIsSet(ws[j], p);
    if j < |es| { NoPostWhileSet(ws[j], es[j], ws[j + 1], p); }
  }

  lemma FlagIsSet(w: World, p: Pid)
    requires Inv(w) && p in w.procs && w.procs[p].phase == Flagged
    ensures w.locked == 1
  {
  }

  lemma NoPostWhileSet(w: World, e: Event, w': World, p: Pid)
    requires Step(w, e, w') && w.locked == 1
    ensures !PostsFor(w, e, p)
  {
  }

  /** After a refused repair the dead owner still holds the token and the flag is still set. */
  lemma RefusalKeeps(ws: seq<World>, es: seq<Event>, i: nat, q: Pid, p: Pid)
    requires IsRun(ws, es) && i < |es| && es[i] == RepairFails(q)
    requires q in ws[i].procs && ws[i].procs[q].actsFor == Some(p)
    ensures HeldByDead(ws[i + 1], p) && ws[i + 1].locked == ws[i].locked == 1
    ensures Alive(ws[i + 1], q) && ws[i + 1].procs[q].check && ws[i + 1].procs[q].actsFor == None
  {
    hide Owners, Checkers;
    RunSafe(ws, es, i);
    RunSafe(ws, es, i + 1);
    assert ActsRightly(ws[i], q);
    OwnerStays(ws[i], es[i], ws[i + 1], p);
    OwnerHolds(ws[i + 1], p);
  }

  lemma RunMore(ws: seq<World>, es: seq<Event>, e: Event, w': World)
    requires IsRun(ws, es) && Step(ws[|es|], e, w')
    ensures IsRun(ws + [w'], es + [e])
  {
    hide Step;
  }

  /** Anyone alive may die at any point of any run; nothing shared changes, and it keeps what it holds. */
  lemma AnyoneDies(ws: seq<World>, es: seq<Event>, p: Pid) returns (w': World)
    requires IsRun(ws, es) && Alive(ws[|es|], p)
    ensures var w := ws[|es|];
      && IsRun(ws + [w'], es + [Die(p)]) && !Alive(w', p) && p in w'.procs
      && w'.sem == w.sem && w'.locked == w.locked && w'.checkSem == w.checkSem
      && w'.procs[p].phase == w.procs[p].phase && w'.procs[p].check == w.procs[p].check
      && (forall q :: q != p ==> (q in w'.procs <==> q in w.procs))
      && (forall q :: q in w.procs && q != p ==> w'.procs[q] == w.procs[q])
  {
    var w := ws[|es|];
    w' := With(w, p, w.procs[p].(alive := false, actsFor := None));
    RunMore(ws, es, Die(p), w');
  }

  /** Process 0 dies while it uses the pool, the repair by process 1 is refused, and its next try succeeds. */
  ghost function Story(): seq<Event> {
    [Start(0), Obtain(0), SetFlag(0), Die(0), Start(1), TakeCheck(1), Force(1, 0), RepairFails(1), Force(1, 0),
      Repair(1), ForcedPost(1)]
  }

  ghost function Scene(k: nat): World {
    if k == 0 then Initial()
    else if k == 1 then World(1, 0, 1, map[0 := Proc(true, Out, false, None)])
    else if k == 2 then World(0, 0, 1, map[0 := Proc(true, Got, false, None)])
    else if k == 3 then World(0, 1, 1, map[0 := Proc(true, Flagged, false, None)])
    else if k == 4 then World(0, 1, 1, map[0 := Proc(false, Flagged, false, None)])
    else if k == 10 then Repairing(0, Cleared, true, Some(0))
    else if k == 11 then World(1, 0, 0, map[0 := Proc(false, Out, false, None), 1 := Proc(true, Out, true, None)])
    else Repairing(1, Flagged, k > 5, if k == 7 || k == 9 then Some(0) else None)
  }

  /** The scenes from the second process on. */
  ghost function Repairing(locked: nat, phase: Phase, check: bool, actsFor: Option<Pid>): World {
    World(0, locked, if check then 0 else 1,
      map[0 := Proc(false, phase, false, None), 1 := Proc(true, Out, check, actsFor)])
  }

  lemma StorySteps(k: nat)
    requires k < 11
    ensures Step(Scene(k), Story()[k], Scene(k + 1))
  {
    if k >= 4 {
      RepairSteps(k);
    } else {
      assert With(Scene(0), 0, Proc(true, Out, false, None)) == Scene(1);
      assert With(Scene(1).(sem := 0), 0, Proc(true, Got, false, None)) == Scene(2);
      assert With(Scene(2).(locked := 1), 0, Proc(true, Flagged, false, None)) == Scene(3);
    }
  }

  lemma RepairSteps(k: nat)
    requires 4 <= k < 11
    ensures Step(Scene(k), Story()[k], Scene(k + 1))
  {
    if k >= 6 { assert DeadOwner(Scene(k), 0); }
  }

  /** It is a run: a dead owner can be reached, and repaired. */
  lemma DeathAndRepair()
    ensures var ws := seq(12, k requires k >= 0 => Scene(k));
      && IsRun(ws, Story()) && HeldByDead(ws[4], 0) && ws[4].procs[0].phase == Flagged && HeldByDead(ws[8], 0)
      && ws[11].sem == 1 && ws[11].locked == 0
  {
    hide Inv, HeldByDead, Step;
    var ws := seq(12, k requires k >= 0 => Scene(k));
    forall k | 0 <= k < 11 ensures Step(ws[k], Story()[k], ws[k + 1]) { StorySteps(k); }
    DeathBlocks(ws, Story(), 3, 4, 0);
    RefusalKeeps(ws, Story(), 7, 1, 0);
  }

  /* ---- What the assumptions exclude ---- */

  /** `local_memcache_get_new` and `local_memcache_random_pair_new` unlock even if
      locking failed: the flag and the semaphore as such an unlock leaves them. */
  ghost function UnlockedAnyway(w: World): World {
    w.(locked := if w.locked != 1 then w.locked else 0, sem := w.sem + 1)
  }

  /** Such an unlock breaks the invariant from every state that has it. */
  lemma UnlockAlwaysBreaks(w: World)
    requires Inv(w)
    ensures !Inv(UnlockedAnyway(w)) && UnlockedAnyway(w).sem + |Owners(UnlockedAnyway(w))| == 2
  {
    assert Owners(UnlockedAnyway(w)) == Owners(w);
  }

  /** From any state in which a process is using the pool, another can get in beside it. */
  lemma UnlockLetsTwoIn(w: World, p: Pid, q: Pid) returns (w1: World, w2: World)
    requires Inv(w) && Alive(w, p) && w.procs[p].phase == Flagged
    requires Alive(w, q) && w.procs[q].phase == Out && w.procs[q].actsFor == None
    ensures Step(UnlockedAnyway(w), Obtain(q), w1) && Step(w1, SetFlag(q), w2)
    ensures p != q && UsesPool(w2, p) && UsesPool(w2, q)
  {
    SoleOwner(w, p);
    var w0 := UnlockedAnyway(w);
    w1 := With(w0.(sem := w0.sem - 1), q, w0.procs[q].(phase := Got));
    w2 := With(w1.(locked := 1), q, w1.procs[q].(phase := Flagged));
  }

  /** A repair forced while the holder is only slow (stopped, not dead) does too. */
  lemma SlowHolderBreaks(w: World, p: Pid, h: Pid) returns (w1: World, w2: World, w3: World)
    requires Inv(w) && Alive(w, p) && w.procs[p].check && w.procs[p].phase == Out && w.procs[p].actsFor == None
    requires Alive(w, h) && w.procs[h].phase == Flagged
    ensures w1 == w.(locked := 0, sem := 1) && !Inv(w1)  // flag cleared and semaphore posted over the live holder
    ensures Step(w1, Obtain(p), w2) && Step(w2, SetFlag(p), w3)
    ensures p != h && UsesPool(w3, p) && UsesPool(w3, h)
  {
    SoleOwner(w, h);
    w1 := w.(locked := 0, sem := 1);
    assert Owners(w1) == Owners(w);
    w2 := With(w1.(sem := 0), p, w1.procs[p].(phase := Got));
    w3 := With(w2.(locked := 1), p, w2.procs[p].(phase := Flagged));
  }

  /** A repairer that dies holding the check semaphore. */
  ghost predicate DeadChecker(w: World, p: Pid) {
    p in w.procs && !w.procs[p].alive && w.procs[p].check
  }

  lemma StillDead(w: World, e: Event, w': World, p: Pid)
    requires Inv(w) && DeadChecker(w, p) && Step(w, e, w')
    ensures DeadChecker(w', p) && !(e.TakeCheck? || e.Force? || e.Repair?)
  {
    hide Owners, Checkers;
    assert forall q :: q in w.procs && w.procs[q].actsFor.Some? ==> ActsRightly(w, q);
    SoleChecker(w, p);
  }

  /** No repair can start after that: the semaphores would have to be made anew. */
  lemma {:induction false} RepairsBlocked(ws: seq<World>, es: seq<Event>, i: nat, j: nat, p: Pid)
    requires IsRun(ws, es) && i <= j < |es| && DeadChecker(ws[i], p)
    ensures DeadChecker(ws[j], p) && !(es[j].TakeCheck? || es[j].Force? || es[j].Repair?)
    decreases j
  {
    hide Inv, Step, DeadChecker;
    if i < j {
      RepairsBlocked(ws, es, i, j - 1, p);
      RunSafe(ws, es, j - 1);
      StillDead(ws[j - 1], es[j - 1], ws[j], p);
    }
    RunSafe(ws, es, j);
    StillDead(ws[j], es[j], ws[j + 1], p);
  }

  /* ---- The code of each step ---- */

  /** The shared words: the two semaphores' values and `md->locked`. */
  class Shared {
    var sem: nat
    var locked: nat
    var checkSem: nat

    ghost predicate Is(w: World)
      reads this
    {
      sem == w.sem && locked == w.locked && checkSem == w.checkSem
    }

    /** `sem_trywait` on the namespace's semaphore. */
    method TryLock(p: Pid, ghost w: World) returns (ok: bool, ghost w': World)
      requires Is(w) && Alive(w, p) && w.procs[p].phase == Out && w.procs[p].actsFor == None
      modifies this`sem
      ensures Is(w') && (ok <==> w.sem > 0) && (if ok then Step(w, Obtain(p), w') else w' == w)
    {
      w' := w;
      ok := sem > 0;
      if ok {
        sem := sem - 1;
        w' := With(w.(sem := w.sem - 1), p, w.procs[p].(phase := Got));
      }
    }

    /** The end of `sem_timedwait`, in whatever state the others have brought about by
        then: the semaphore was free, or the time is up.  By the assumption that
        happens only while a dead process owns it, whose lock may then be repaired. */
    method TimedWait(p: Pid, expired: bool, ghost w: World) returns (ok: bool, ghost w': World, ghost d: Pid)
      requires Is(w) && Alive(w, p) && w.procs[p].phase == Out && w.procs[p].actsFor == None
      requires if expired then w.sem == 0 && exists x :: DeadOwner(w, x) else w.sem > 0
      modifies this`sem
      ensures Is(w') && (ok <==> !expired)
      ensures if ok then Step(w, Obtain(p), w') else w' == w && DeadOwner(w, d)
      ensures !ok && w.procs[p].check ==> Step(w, Force(p, d), With(w, p, w.procs[p].(actsFor := Some(d))))
    {
      d := 0;
      if expired {
        d :| DeadOwner(w, d);
        return false, w, d;
      }
      sem := sem - 1;
      return true, With(w.(sem := w.sem - 1), p, w.procs[p].(phase := Got)), d;
    }

    /** `lmc_is_lock_working`: what it gets it gives back at once. */
    method IsLockWorking(p: Pid, expired: bool, ghost w: World) returns (working: bool, ghost d: Pid)
      requires Is(w) && Alive(w, p) && w.procs[p].phase == Out && w.procs[p].actsFor == None
      requires if expired then w.sem == 0 && exists x :: DeadOwner(w, x) else w.sem > 0
      modifies this`sem
      ensures Is(w) && (working <==> !expired)
      ensures !working ==> DeadOwner(w, d)
      ensures !working && w.procs[p].check ==> Step(w, Force(p, d), With(w, p, w.procs[p].(actsFor := Some(d))))
    {
      ghost var w1;
      working, w1, d := TimedWait(p, expired, w);
      if working { sem := sem + 1; }
    }

    /** `lmc_set_lock_flag`, with the release that follows when it fails. */
    method SetLockFlag(p: Pid, ghost w: World) returns (ok: bool, ghost w': World)
      requires Is(w) && Alive(w, p) && w.procs[p].phase == Got
      modifies this`sem, this`locked
      ensures Is(w') && Step(w, SetFlag(p), w') && (Inv(w) ==> ok && w'.procs[p].phase == Flagged)
    {
      if Inv(w) { GotUnflagged(w, p); }
      if locked != 0 {
        sem := sem + 1;
        return false, With(w.(sem := w.sem + 1), p, w.procs[p].(phase := Out));
      }
      locked := 1;
      return true, With(w.(locked := 1), p, w.procs[p].(phase := Flagged));
    }

    /** `lmc_release_lock_flag`. */
    method ReleaseLockFlag(p: Pid, ghost w: World) returns (ok: bool, ghost w': World)
      requires Is(w) && Alive(w, p) && w.procs[p].phase == Flagged
      modifies this`locked
      ensures Is(w') && Step(w, ClearFlag(p), w') && (Inv(w) ==> ok && locked == 0)
    {
      ok := locked == 1;
      if ok { locked := 0; }
      w' := With(w.(locked := if w.locked != 1 then w.locked else 0), p, w.procs[p].(phase := Cleared));
      if Inv(w) { ClearFlagInv(w, p, w'); }
    }

    /** `lmc_lock_release`. */
    method Release(p: Pid, ghost w: World) returns (ghost w': World)
      requires Is(w) && Alive(w, p) && w.procs[p].phase == Cleared
      modifies this`sem
      ensures Is(w') && Step(w, Post(p), w')
    {
      sem := sem + 1;
      w' := With(w.(sem := w.sem + 1), p, w.procs[p].(phase := Out));
    }

    /** The end of a forced repair: the flag is cleared if it was set, and the
        semaphore posted if its value is 0, which it always is. */
    method FinishRepair(p: Pid, ghost w: World) returns (ghost w1: World, ghost w2: World)
      requires Is(w) && Inv(w) && Alive(w, p) && w.procs[p].actsFor.Some?
      modifies this`sem, this`locked
      ensures w1 == w || Step(w, Repair(p), w1)
      ensures Step(w1, ForcedPost(p), w2) && Is(w2) && Inv(w2) && sem == 1 && locked == 0
    {
      ghost var d := w.procs[p].actsFor.value;
      assert ActsRightly(w, p);
      w1 := w;
      if locked != 0 {
        locked := 0;
        w1 := With(w.(locked := 0), d, w.procs[d].(phase := Cleared));
        RepairInv(w, p, w1);
      }
      SoleOwner(w1, d);
      if sem == 0 { sem := sem + 1; }
      w2 := Released(w1.(sem := 1), p, d);
      ForcedPostInv(w1, p, w2);
    }

    /** `lmc_lock_repair`: whatever the value was, it becomes 1. */
    method LockRepair()
      modifies this`sem
      ensures sem == 1
    {
      if sem == 0 { sem := sem + 1; }
      while sem > 1
        invariant sem >= 1
      {
        sem := sem - 1;
      }
    }
  }
}
