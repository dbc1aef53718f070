/**
 One rank's persisted trust status: the candidate step, the recovery-verified pointer, the set
 of verified steps and the recovery mode, together with the shard files written so far. Every
 file write is atomic and a crash may fall between any two of them.
 */
module TrustStatus {
  import opened Prelude
  import opened RecoveryMode

  datatype Status = Status(candidate: int, verifiedStep: int, verified: set<int>, mode: Mode)

  /** Constructing a status adds a positive pointer to the verified set. */
  function Normalised(candidate: int, verifiedStep: int, verified: set<int>, mode: Mode): Status {
    Status(candidate, verifiedStep, if verifiedStep > 0 then verified + {verifiedStep} else verified, mode)
  }

  const DEFAULT := Status(-1, -1, {}, LatestGemini)

  // replicated: four slots and a peer. Files are the steps with an own and with a peer shard.
  datatype Store = Store(replicated: bool, status: Status, own: set<int>, peer: set<int>)

  datatype Write = WriteOwn(step: int) | WritePeer(step: int) | WriteStatus(status: Status)

  function Apply(s: Store, w: Write): Store {
    match w
    case WriteOwn(step) => s.(own := s.own + {step})
    case WritePeer(step) => s.(peer := s.peer + {step})
    case WriteStatus(status) => s.(status := status)
  }

  function ApplyAll(s: Store, ws: seq<Write>): Store
    decreases |ws|
  {
    if ws == [] then s else ApplyAll(Apply(s, ws[0]), ws[1..])
  }

  // What a boundary finds in memory: whether the exchange completed, whether every rank holds
  // the step READY, and whether this rank holds a READY peer replica of it.
  datatype Found = Found(exchanged: bool, everyRankReady: bool, peerReady: bool)

  datatype Action =
    | Boundary(step: int, verifyCurrent: bool, found: Found)
    | SetMode(mode: Mode)
    | Activate(mode: Mode)
    | ClearCandidate
    | RejectCandidate

  predicate Persists(replicated: bool, found: Found) {
    (replicated ==> found.exchanged && found.peerReady) && found.everyRankReady
  }

  function BoundaryStatus(s: Status, step: int, verifyCurrent: bool): Status {
    if verifyCurrent then Normalised(-1, step, s.verified, LatestGemini)
    else Normalised(step, if s.candidate > 0 then s.candidate else s.verifiedStep, s.verified, LatestGemini)
  }

  function ModeStatus(s: Status, mode: Mode): Status {
    Normalised(if mode == RecoveryVerified then -1 else s.candidate, s.verifiedStep, s.verified, mode)
  }

  /** The file writes of one action, in order; a refused boundary may already have written a shard. */
  function Writes(s: Store, a: Action): seq<Write>
  {
    match a
    case Boundary(step, verifyCurrent, found) =>
      if (s.replicated && !found.exchanged) || !found.everyRankReady then []
      else if s.replicated && !found.peerReady then [WriteOwn(step)]
      else [WriteOwn(step)] + (if s.replicated then [WritePeer(step)] else [])
           + [WriteStatus(BoundaryStatus(s.status, step, verifyCurrent))]
    case SetMode(mode) => [WriteStatus(ModeStatus(s.status, mode))]
    case Activate(mode) =>
      if s.status.mode != mode || (mode == RecoveryVerified && s.status.candidate > 0)
      then [WriteStatus(ModeStatus(s.status, mode))] else []
    case ClearCandidate =>
      [WriteStatus(Normalised(-1, s.status.verifiedStep, s.status.verified, s.status.mode))]
    case RejectCandidate => [WriteStatus(ModeStatus(s.status, RecoveryVerified))]
  }

  // One action, complete or cut by a crash after some of its writes.
  datatype Event = Event(action: Action, crash: Option<nat>)

  function Effective(s: Store, e: Event): seq<Write> {
    var ws := Writes(s, e.action);
    if e.crash.Some? && e.crash.value < |ws| then ws[..e.crash.value] else ws
  }

  function Next(s: Store, e: Event): Store { ApplyAll(s, Effective(s, e)) }

  function Init(replicated: bool): Store { Store(replicated, DEFAULT, {}, {}) }

  /** The store after the first n events. */
  function After(replicated: bool, es: seq<Event>, n: nat): Store
    requires n <= |es|
  {
    if n == 0 then Init(replicated) else Next(After(replicated, es, n - 1), es[n - 1])
  }

  // ---------- what one event does ----------

  // No crash falls before the first n writes are done.
  predicate Uncut(e: Event, n: nat) { e.crash.None? || e.crash.value >= n }

  // A boundary that passes every check and writes its shards and its status.
  predicate Completes(replicated: bool, e: Event) {
    e.action.Boundary? && Persists(replicated, e.action.found) && Uncut(e, if replicated then 3 else 2)
  }

  // A completed clear, rejection, or switch to verified recovery.
  predicate Drops(e: Event) {
    && Uncut(e, 1)
    && match e.action
       case Boundary(_, _, _) => false
       case SetMode(mode) => mode == RecoveryVerified
       case Activate(mode) => mode == RecoveryVerified
       case ClearCandidate => true
       case RejectCandidate => true
  }

  // The mode a completed event selects.
  function Selects(replicated: bool, e: Event): Option<Mode> {
    match e.action
    case Boundary(_, _, _) => if Completes(replicated, e) then Some(LatestGemini) else None
    case SetMode(mode) => if Uncut(e, 1) then Some(mode) else None
    case Activate(mode) => if Uncut(e, 1) then Some(mode) else None
    case ClearCandidate => None
    case RejectCandidate => if Uncut(e, 1) then Some(RecoveryVerified) else None
  }

  ghost predicate CandidateEffect(replicated: bool, st: Status, e: Event, st': Status) {
    if Completes(replicated, e) then st'.candidate == if e.action.verifyCurrent then -1 else e.action.step
    else if Drops(e) then st'.candidate <= 0
    else st'.candidate == st.candidate
  }

  // What the event puts into the pointer: the boundary's own step, or the candidate it promotes.
  ghost predicate PointerEffect(replicated: bool, st: Status, e: Event, st': Status) {
    var moved := if Completes(replicated, e) && e.action.verifyCurrent then e.action.step
                 else if Completes(replicated, e) && st.candidate > 0 then st.candidate
                 else st.verifiedStep;
    st'.verifiedStep == moved && st'.verified == if moved > 0 then st.verified + {moved} else st.verified
  }

  /** What one event does to each part of the status, read off the event alone. */
  lemma EventEffect(s: Store, e: Event)
    requires Sound(s)
    ensures var s' := Next(s, e);
            && s'.replicated == s.replicated && s.own <= s'.own && s.peer <= s'.peer
            && CandidateEffect(s.replicated, s.status, e, s'.status)
            && PointerEffect(s.replicated, s.status, e, s'.status)
            && s'.status.mode == (match Selects(s.replicated, e) case Some(mode) => mode case None => s.status.mode)
            && (Completes(s.replicated, e) ==>
                  e.action.step in s'.own && (s.replicated ==> e.action.step in s'.peer))
  {
    if s.status.verifiedStep > 0 {
      assert s.status.verified + {s.status.verifiedStep} == s.status.verified;
    }
    if e.action.Boundary? {
      BoundaryEffect(s, e);
    } else {
      var eff := Effective(s, e);
      if |eff| == 1 {
        Unfold1(s, eff);
      }
    }
  }

  lemma BoundaryEffect(s: Store, e: Event)
    requires e.action.Boundary?
    ensures var s' := Next(s, e);
            && s'.replicated == s.replicated && s.own <= s'.own && s.peer <= s'.peer
            && (Completes(s.replicated, e) ==>
                  && s'.status == BoundaryStatus(s.status, e.action.step, e.action.verifyCurrent)
                  && e.action.step in s'.own && (s.replicated ==> e.action.step in s'.peer))
            && (!Completes(s.replicated, e) ==> s'.status == s.status)
  {
    var eff := Effective(s, e);
    assert |eff| <= 3;
    if |eff| == 1 {
      Unfold1(s, eff);
    } else if |eff| == 2 {
      Unfold2(s, eff);
    } else if |eff| == 3 {
      Unfold3(s, eff);
    }
  }

  lemma Unfold1(s: Store, ws: seq<Write>)
    requires |ws| == 1
    ensures ApplyAll(s, ws) == Apply(s, ws[0])
  {
    assert ws[1..] == [];
  }

  lemma Unfold2(s: Store, ws: seq<Write>)
    requires |ws| == 2
    ensures ApplyAll(s, ws) == Apply(Apply(s, ws[0]), ws[1])
  {
    Unfold1(Apply(s, ws[0]), ws[1..]);
  }

  lemma Unfold3(s: Store, ws: seq<Write>)
    requires |ws| == 3
    ensures ApplyAll(s, ws) == Apply(Apply(Apply(s, ws[0]), ws[1]), ws[2])
  {
    Unfold2(Apply(s, ws[0]), ws[1..]);
  }

  // ---------- invariants over runs ----------

  ghost predicate Sound(s: Store) {
    && (s.status.verifiedStep <= 0 || s.status.verifiedStep in s.status.verified)
    && (forall x <- s.status.verified :: x > 0 && x in s.own && (s.replicated ==> x in s.peer))
    && (s.status.candidate > 0 ==> s.status.candidate in s.own && (s.replicated ==> s.status.candidate in s.peer))
  }

  lemma StepSound(s: Store, e: Event)
    requires Sound(s)
    ensures Sound(Next(s, e)) && s.status.verified <= Next(s, e).status.verified
    ensures Next(s, e).replicated == s.replicated
  {
    EventEffect(s, e);
  }

  /**
   Over every run with crashes: the verified set only grows, a positive verified pointer is in
   it, and every verified step, like the live candidate, had its own shard and, when
   replicated, its peer shard written first.
   */
  lemma {:induction false} SoundTheorem(replicated: bool, es: seq<Event>, n: nat)
    requires n <= |es|
    ensures Sound(After(replicated, es, n)) && After(replicated, es, n).replicated == replicated
    ensures n > 0 ==> After(replicated, es, n - 1).status.verified <= After(replicated, es, n).status.verified
  {
    if n == 0 {
    } else {
      SoundTheorem(replicated, es, n - 1);
      StepSound(After(replicated, es, n - 1), es[n - 1]);
    }
  }

  predicate PointerGood(st: Status) { st.verifiedStep == -1 || st.verifiedStep in st.verified }

  // The event completes a verified boundary at a step that is no training step and not -1 either.
  predicate BreaksPointer(s: Store, e: Event) {
    Completes(s.replicated, e) && e.action.verifyCurrent && e.action.step <= 0 && e.action.step != -1
  }

  lemma StepPointer(s: Store, e: Event)
    requires Sound(s) && PointerGood(s.status)
    ensures PointerGood(Next(s, e).status) <==> !BreaksPointer(s, e)
  {
    EventEffect(s, e);
    StepSound(s, e);
  }

  // The pointer is -1 or verified after each of the first n events.
  predicate AlwaysGood(replicated: bool, es: seq<Event>, n: nat)
    requires n <= |es|
  {
    PointerGood(After(replicated, es, n).status) && (n > 0 ==> AlwaysGood(replicated, es, n - 1))
  }

  // None of the first n events breaks the pointer.
  predicate NoneBreaks(replicated: bool, es: seq<Event>, n: nat)
    requires n <= |es|
  {
    n > 0 ==> !BreaksPointer(After(replicated, es, n - 1), es[n - 1]) && NoneBreaks(replicated, es, n - 1)
  }

  /**
   Over every run with crashes the verified pointer is -1 or verified at every point exactly when
   no verified boundary completes at step 0 or below -1.
   */
  lemma {:induction false} PointerTheorem(replicated: bool, es: seq<Event>, n: nat)
    requires n <= |es|
    ensures AlwaysGood(replicated, es, n) <==> NoneBreaks(replicated, es, n)
  {
    if n == 0 {
      assert PointerGood(Init(replicated).status);
    } else {
      PointerTheorem(replicated, es, n - 1);
      if AlwaysGood(replicated, es, n - 1) {
        SoundTheorem(replicated, es, n - 1);
        StepPointer(After(replicated, es, n - 1), es[n - 1]);
      }
    }
  }

  /** Without replication a verified boundary at step 0 leaves a pointer that is neither -1 nor verified. */
  lemma ZeroStepPointer()
    ensures var e := Event(Boundary(0, true, Found(true, true, false)), None);
            var st := Next(Init(false), e).status;
            st.verifiedStep == 0 && st.verified == {}
  {
    var e := Event(Boundary(0, true, Found(true, true, false)), None);
    EventEffect(Init(false), e);
    assert Completes(false, e);
  }

  // ---------- where the candidate and the verified steps come from ----------

  // Event j completes a cycle boundary at step x.
  predicate CycleAt(replicated: bool, e: Event, x: int) {
    Completes(replicated, e) && !e.action.verifyCurrent && e.action.step == x
  }

  // Event k ends every older candidacy.
  predicate Ends(replicated: bool, e: Event) { Completes(replicated, e) || Drops(e) }

  // Step x is the live candidate before event n: one earlier cycle boundary at x, and nothing since ended it.
  ghost predicate Live(replicated: bool, es: seq<Event>, n: nat, x: int)
    requires n <= |es|
  {
    exists j :: 0 <= j < n && CycleAt(replicated, es[j], x) && Undisturbed(replicated, es, j, n)
  }

  ghost predicate Undisturbed(replicated: bool, es: seq<Event>, j: int, n: nat)
    requires 0 <= j < n <= |es|
  {
    forall k :: j < k < n ==> !Ends(replicated, es[k])
  }

  lemma HistoryStep(replicated: bool, es: seq<Event>, k: nat)
    requires k < |es|
    ensures var st, st' := After(replicated, es, k).status, After(replicated, es, k + 1).status;
            CandidateEffect(replicated, st, es[k], st') && PointerEffect(replicated, st, es[k], st')
    ensures var st := After(replicated, es, k).status; st.verifiedStep <= 0 || st.verifiedStep in st.verified
  {
    SoundTheorem(replicated, es, k);
    EventEffect(After(replicated, es, k), es[k]);
  }

  lemma LiveStep(replicated: bool, es: seq<Event>, n: nat, x: int)
    requires 0 < n <= |es|
    ensures Live(replicated, es, n, x) <==>
            CycleAt(replicated, es[n - 1], x) || (Live(replicated, es, n - 1, x) && !Ends(replicated, es[n - 1]))
  {
    if CycleAt(replicated, es[n - 1], x) {
      assert Undisturbed(replicated, es, n - 1, n);
    }
    if Live(replicated, es, n - 1, x) && !Ends(replicated, es[n - 1]) {
      var j :| 0 <= j < n - 1 && CycleAt(replicated, es[j], x) && Undisturbed(replicated, es, j, n - 1);
      assert Undisturbed(replicated, es, j, n);
    }
    if Live(replicated, es, n, x) && !CycleAt(replicated, es[n - 1], x) {
      var j :| 0 <= j < n && CycleAt(replicated, es[j], x) && Undisturbed(replicated, es, j, n);
      assert j < n - 1 && Undisturbed(replicated, es, j, n - 1);
    }
  }

  /** The positive candidate of the status is exactly the step that is live by the events alone. */
  lemma {:induction false} CandidateTheorem(replicated: bool, es: seq<Event>, n: nat, x: int)
    requires n <= |es| && x > 0
    ensures After(replicated, es, n).status.candidate == x <==> Live(replicated, es, n, x)
  {
    if n == 0 {
    } else {
      CandidateTheorem(replicated, es, n - 1, x);
      HistoryStep(replicated, es, n - 1);
      LiveStep(replicated, es, n, x);
    }
  }

  // Event k verifies step x: a verified boundary at x, or a cycle boundary while x is live.
  ghost predicate Verifies(replicated: bool, es: seq<Event>, k: nat, x: int)
    requires k < |es|
  {
    Completes(replicated, es[k]) && if es[k].action.verifyCurrent then es[k].action.step == x
                                    else x > 0 && Live(replicated, es, k, x)
  }

  lemma VerifiesIsMove(replicated: bool, es: seq<Event>, k: nat, x: int)
    requires k < |es|
    ensures var st := After(replicated, es, k).status;
            Verifies(replicated, es, k, x) <==>
              Completes(replicated, es[k]) && if es[k].action.verifyCurrent then es[k].action.step == x
                                              else st.candidate == x > 0
  {
    if x > 0 {
      CandidateTheorem(replicated, es, k, x);
    }
  }

  // One of the first n events verifies the step.
  ghost predicate VerifiedBy(replicated: bool, es: seq<Event>, n: nat, x: int)
    requires n <= |es|
  {
    exists k :: 0 <= k < n && Verifies(replicated, es, k, x)
  }

  lemma VerifiedByStep(replicated: bool, es: seq<Event>, n: nat, x: int)
    requires 0 < n <= |es|
    ensures VerifiedBy(replicated, es, n, x) <==>
            VerifiedBy(replicated, es, n - 1, x) || Verifies(replicated, es, n - 1, x)
  {
  }

  lemma EntersIff(replicated: bool, es: seq<Event>, k: nat, x: int)
    requires k < |es|
    ensures var st, st' := After(replicated, es, k).status, After(replicated, es, k + 1).status;
            x in st'.verified <==> x in st.verified || (x > 0 && Verifies(replicated, es, k, x))
  {
    HistoryStep(replicated, es, k);
    VerifiesIsMove(replicated, es, k, x);
  }

  /**
   A step is verified exactly when it is positive and a verified boundary at it completed, or a cycle
   boundary completed while it was live: made the candidate by an earlier cycle boundary and neither
   replaced, cleared nor rejected since.
   */
  lemma {:induction false} ProvenanceTheorem(replicated: bool, es: seq<Event>, n: nat, x: int)
    requires n <= |es|
    ensures x in After(replicated, es, n).status.verified <==> x > 0 && VerifiedBy(replicated, es, n, x)
  {
    if n == 0 {
    } else {
      ProvenanceTheorem(replicated, es, n - 1, x);
      EntersIff(replicated, es, n - 1, x);
      VerifiedByStep(replicated, es, n, x);
    }
  }

  // Event k verifies some step.
  ghost predicate Moves(replicated: bool, es: seq<Event>, k: nat)
    requires k < |es|
  {
    exists x :: Verifies(replicated, es, k, x)
  }

  // Event k verifies x and no later one before event n verifies anything.
  ghost predicate LastVerified(replicated: bool, es: seq<Event>, k: nat, n: nat, x: int)
    requires k < n <= |es|
  {
    Verifies(replicated, es, k, x) && forall m :: k < m < n ==> !Moves(replicated, es, m)
  }

  lemma PointerMoves(replicated: bool, es: seq<Event>, k: nat)
    requires k < |es|
    ensures var st, st' := After(replicated, es, k).status, After(replicated, es, k + 1).status;
            if Moves(replicated, es, k) then Verifies(replicated, es, k, st'.verifiedStep)
            else st'.verifiedStep == st.verifiedStep
  {
    HistoryStep(replicated, es, k);
    var st, st' := After(replicated, es, k).status, After(replicated, es, k + 1).status;
    VerifiesIsMove(replicated, es, k, st'.verifiedStep);
    if x :| Verifies(replicated, es, k, x) {
      VerifiesIsMove(replicated, es, k, x);
    }
  }

  ghost predicate PointerHistory(replicated: bool, es: seq<Event>, n: nat, pointer: int)
    requires n <= |es|
  {
    || (exists k: nat :: k < n && LastVerified(replicated, es, k, n, pointer))
    || (pointer == -1 && forall k :: 0 <= k < n ==> !Moves(replicated, es, k))
  }

  lemma PointerHistoryStep(replicated: bool, es: seq<Event>, k: nat, pointer: int, pointer': int)
    requires k < |es| && PointerHistory(replicated, es, k, pointer)
    requires if Moves(replicated, es, k) then Verifies(replicated, es, k, pointer') else pointer' == pointer
    ensures PointerHistory(replicated, es, k + 1, pointer')
  {
    if Moves(replicated, es, k) {
      assert LastVerified(replicated, es, k, k + 1, pointer');
    } else if j: nat :| j < k && LastVerified(replicated, es, j, k, pointer) {
      assert LastVerified(replicated, es, j, k + 1, pointer');
    }
  }

  /** The pointer is the step verified last, or -1 before anything was verified. */
  lemma {:induction false} LastVerifiedTheorem(replicated: bool, es: seq<Event>, n: nat)
    requires n <= |es|
    ensures PointerHistory(replicated, es, n, After(replicated, es, n).status.verifiedStep)
  {
    if n == 0 {
    } else {
      var k := n - 1;
      LastVerifiedTheorem(replicated, es, k);
      PointerMoves(replicated, es, k);
      PointerHistoryStep(replicated, es, k, After(replicated, es, k).status.verifiedStep,
                         After(replicated, es, n).status.verifiedStep);
    }
  }

  /**
   A candidate that was cleared, rejected or given up for verified recovery is gone: no candidate is left,
   and its step is verified later only if a later boundary at that very step completes.
   */
  lemma RejectedTheorem(replicated: bool, es: seq<Event>, k: nat, n: nat, x: int)
    requires k < n <= |es| && Drops(es[k]) && x !in After(replicated, es, k).status.verified
    ensures After(replicated, es, k + 1).status.candidate <= 0
    ensures x in After(replicated, es, n).status.verified ==>
            exists m :: k < m < n && Completes(replicated, es[m]) && es[m].action.step == x
  {
    SoundTheorem(replicated, es, k);
    EventEffect(After(replicated, es, k), es[k]);
    ProvenanceTheorem(replicated, es, k, x);
    ProvenanceTheorem(replicated, es, n, x);
    if x in After(replicated, es, n).status.verified {
      var m :| 0 <= m < n && Verifies(replicated, es, m, x);
      assert m > k;
      if !es[m].action.verifyCurrent {
        var j :| 0 <= j < m && CycleAt(replicated, es[j], x) && Undisturbed(replicated, es, j, m);
        assert Ends(replicated, es[k]) && j > k;
      }
    }
  }

  // ---------- the object ----------

  class StatusKeeper {
    const replicated: bool
    var status: Status
    var own: set<int>
    var peer: set<int>

    ghost function View(): Store
      reads this
    {
      Store(replicated, status, own, peer)
    }

    constructor (replicated: bool)
      ensures View() == Init(replicated)
    {
      this.replicated := replicated;
      status, own, peer := DEFAULT, {}, {};
    }

    /** Persists one boundary; a refusal is reported and leaves the status unchanged. */
    method PersistBoundary(step: int, verifyCurrent: bool, found: Found) returns (persisted: bool)
      modifies this
      ensures View() == ApplyAll(old(View()), Writes(old(View()), Boundary(step, verifyCurrent, found)))
      ensures persisted == Persists(replicated, found)
      ensures !persisted ==> status == old(status)
      ensures persisted ==>
                && status.mode == LatestGemini && status.candidate == (if verifyCurrent then -1 else step)
                && step in own && (replicated ==> step in peer)
                && PointerEffect(replicated, old(status), Event(Boundary(step, verifyCurrent, found), None), status)
    {
      ghost var ws := Writes(View(), Boundary(step, verifyCurrent, found));
      if replicated && !found.exchanged {
        return false;
      }
      if !found.everyRankReady {
        return false;
      }
      own := own + {step};
      if replicated {
        if !found.peerReady {
          Unfold1(old(View()), ws);
          return false;
        }
        peer := peer + {step};
      }
      var verifiedStep, candidate := step, -1;
      if !verifyCurrent {
        verifiedStep := if status.candidate > 0 then status.candidate else status.verifiedStep;
        candidate := step;
      }
      status := Normalised(candidate, verifiedStep, status.verified, LatestGemini);
      persisted := true;
      if replicated {
        Unfold3(old(View()), ws);
      } else {
        Unfold2(old(View()), ws);
      }
    }

    method SetRecoveryMode(mode: Mode)
      modifies this
      ensures View() == ApplyAll(old(View()), Writes(old(View()), SetMode(mode)))
      ensures status.mode == mode && status.verifiedStep == old(status).verifiedStep
      ensures status.candidate == if mode == RecoveryVerified then -1 else old(status).candidate
      ensures own == old(own) && peer == old(peer)
    {
      Unfold1(View(), Writes(View(), SetMode(mode)));
      status := Normalised(if mode == RecoveryVerified then -1 else status.candidate,
                           status.verifiedStep, status.verified, mode);
    }

    method ActivateRecoveryMode(mode: Mode)
      modifies this
      ensures View() == ApplyAll(old(View()), Writes(old(View()), Activate(mode)))
      ensures status.mode == mode && (mode == RecoveryVerified ==> status.candidate <= 0)
    {
      if status.mode != mode || (mode == RecoveryVerified && status.candidate > 0) {
        SetRecoveryMode(mode);
      }
    }

    method RejectCandidate()
      modifies this
      ensures View() == ApplyAll(old(View()), Writes(old(View()), Action.RejectCandidate))
      ensures status.mode == RecoveryVerified && status.candidate == -1
      ensures status.verifiedStep == old(status).verifiedStep
    {
      Unfold1(View(), Writes(View(), Action.RejectCandidate));
      SetRecoveryMode(RecoveryVerified);
    }

    method Clear()
      modifies this
      ensures View() == ApplyAll(old(View()), Writes(old(View()), ClearCandidate))
      ensures status.candidate == -1 && status.mode == old(status).mode
    {
      Unfold1(View(), Writes(View(), ClearCandidate));
      status := Normalised(-1, status.verifiedStep, status.verified, status.mode);
    }
  }
}
