/**
 Recovery of one exact, manager-selected step. Each rank decides from its own request, its
 own disk and memory, and the MIN and MAX values reduced over all ranks.
 */
module ExactRecovery {
  import opened Prelude
  import opened RecoveryMode
  import opened Recovery

  // A request that is not a plain integer is refused locally.
  datatype Request = NotAnInteger | Step(value: int)

  /**
   mode: the resolved mode, None when resolving raised. activates: whether persisting the mode
   succeeded. verified: the rank's verified steps, None when the status could not be read.
   */
  datatype Rank = Rank(request: Request, mode: Option<Mode>, activates: bool, verified: Option<set<int>>,
                       onDisk: set<int>, diskLoads: set<int>, inMemory: set<int>)

  datatype Outcome = Raised | NoShard | Shard(step: int, mode: Mode)

  predicate LocallyValid(r: Rank) { r.request.Step? && r.request.value >= 1 && r.mode.Some? }

  function ModeCode(m: Mode): int { if m == LatestGemini then 0 else 1 }

  // The three integers a rank contributes to the request agreement.
  datatype Terms = Terms(ok: int, step: int, code: int)

  function TermsOf(r: Rank): Terms {
    if LocallyValid(r) then Terms(1, r.request.value, ModeCode(r.mode.value)) else Terms(0, -1, -1)
  }

  function Oks(ranks: seq<Rank>): seq<int> { seq(|ranks|, i requires 0 <= i < |ranks| => TermsOf(ranks[i]).ok) }
  function Steps(ranks: seq<Rank>): seq<int> { seq(|ranks|, i requires 0 <= i < |ranks| => TermsOf(ranks[i]).step) }
  function Codes(ranks: seq<Rank>): seq<int> { seq(|ranks|, i requires 0 <= i < |ranks| => TermsOf(ranks[i]).code) }

  function MaxOf(values: seq<int>): (m: int)
    requires values != []
    ensures m in values && forall v <- values :: v <= m
  {
    if |values| == 1 then values[0]
    else
      assert forall v <- values :: v == values[0] || v in values[1..];
      var rest := MaxOf(values[1..]);
      if values[0] > rest then values[0] else rest
  }

  function Lower(ranks: seq<Rank>): Terms
    requires ranks != []
  {
    Terms(MinOf(Oks(ranks)), MinOf(Steps(ranks)), MinOf(Codes(ranks)))
  }

  function Upper(ranks: seq<Rank>): Terms
    requires ranks != []
  {
    Terms(MaxOf(Oks(ranks)), MaxOf(Steps(ranks)), MaxOf(Codes(ranks)))
  }

  // A yes/no vote by MIN all-reduce.
  function Flag(b: bool): int { if b then 1 else 0 }

  function Activations(ranks: seq<Rank>): seq<int>
  {
    seq(|ranks|, i requires 0 <= i < |ranks| => Flag(ranks[i].activates))
  }

  predicate Eligible(r: Rank, step: int) { r.verified.Some? && step in r.verified.value && step in r.onDisk }

  function Eligibilities(ranks: seq<Rank>, step: int): seq<int> {
    seq(|ranks|, i requires 0 <= i < |ranks| => Flag(Eligible(ranks[i], step)))
  }

  predicate HasShard(r: Rank, step: int, mode: Mode) {
    if mode == RecoveryVerified then step in r.diskLoads else step in r.inMemory || step in r.diskLoads
  }

  function Loaded(ranks: seq<Rank>, step: int, mode: Mode): seq<int> {
    seq(|ranks|, i requires 0 <= i < |ranks| => Flag(HasShard(ranks[i], step, mode)))
  }

  /** What rank r does, given the reduced values; it can only return a shard it loaded itself. */
  function OutcomeFrom(r: Rank, lower: Terms, upper: Terms, activated: int, eligible: (int) -> int, loaded: (int,
                       Mode) -> int): Outcome
  {
    if lower.ok != 1 || upper.ok != 1 then Raised
    else if lower.step != upper.step || lower.code != upper.code then Raised
    else
      var mode := if lower.code == 0 then LatestGemini else RecoveryVerified;
      if activated != 1 then NoShard
      else if mode == RecoveryVerified && eligible(lower.step) != 1 then NoShard
      else if loaded(lower.step, mode) != 1 then NoShard
      else if HasShard(r, lower.step, mode) then Shard(lower.step, mode)
      else NoShard
  }

  /** The outcome on rank `me`: its own data and the reductions every rank receives. */
  function LoadExact(ranks: seq<Rank>, me: nat): Outcome
    requires me < |ranks|
  {
    OutcomeFrom(ranks[me], Lower(ranks), Upper(ranks), MinOf(Activations(ranks)),
                s => MinOf(Eligibilities(ranks, s)), (s, m) => MinOf(Loaded(ranks, s, m)))
  }

  lemma {:induction false} BoundsAreEqual(values: seq<int>, v: int)
    requires values != []
    ensures MinOf(values) == MaxOf(values) == v <==> forall i :: 0 <= i < |values| ==> values[i] == v
  {
    assert values[0] in values;
    if MinOf(values) == MaxOf(values) == v {
      forall i | 0 <= i < |values|
        ensures values[i] == v
      {
        assert values[i] in values;
      }
    }
  }

  // Every rank asks for this step and mode.
  ghost predicate CommonRequest(ranks: seq<Rank>, step: int, mode: Mode) {
    step >= 1 && forall i :: 0 <= i < |ranks| ==> ranks[i].request == Step(step) && ranks[i].mode == Some(mode)
  }

  // Every rank can activate the mode and produce the shard.
  ghost predicate EveryRankDelivers(ranks: seq<Rank>, step: int, mode: Mode) {
    forall i :: 0 <= i < |ranks| ==>
      && ranks[i].activates
      && match mode
         case LatestGemini => step in ranks[i].inMemory || step in ranks[i].diskLoads
         case RecoveryVerified =>
           && ranks[i].verified.Some? && step in ranks[i].verified.value
           && step in ranks[i].onDisk && step in ranks[i].diskLoads
  }

  lemma AgreementIsCommonRequest(ranks: seq<Rank>, step: int, mode: Mode)
    requires ranks != []
    ensures var l, u := Lower(ranks), Upper(ranks);
            (l.ok == u.ok == 1 && l.step == u.step == step && l.code == u.code == ModeCode(mode))
            <==> CommonRequest(ranks, step, mode)
  {
    BoundsAreEqual(Oks(ranks), 1);
    BoundsAreEqual(Steps(ranks), step);
    BoundsAreEqual(Codes(ranks), ModeCode(mode));
    var l, u := Lower(ranks), Upper(ranks);
    if l.ok == u.ok == 1 && l.step == u.step == step && l.code == u.code == ModeCode(mode) {
      forall i | 0 <= i < |ranks|
        ensures step >= 1 && ranks[i].request == Step(step) && ranks[i].mode == Some(mode)
      {
        assert Oks(ranks)[i] == 1 && Steps(ranks)[i] == step && Codes(ranks)[i] == ModeCode(mode);
      }
      assert ranks[0].request == Step(step);
    }
    if CommonRequest(ranks, step, mode) {
      forall i | 0 <= i < |ranks|
        ensures Oks(ranks)[i] == 1 && Steps(ranks)[i] == step && Codes(ranks)[i] == ModeCode(mode)
      {
        assert ranks[i].request == Step(step);
      }
    }
  }

  lemma VotesAreDelivery(ranks: seq<Rank>, step: int, mode: Mode)
    requires ranks != []
    ensures (MinOf(Activations(ranks)) == 1 && MinOf(Loaded(ranks, step, mode)) == 1
             && (mode == RecoveryVerified ==> MinOf(Eligibilities(ranks, step)) == 1))
            <==> EveryRankDelivers(ranks, step, mode)
  {
    VoteIsUnanimous(Activations(ranks));
    VoteIsUnanimous(Loaded(ranks, step, mode));
    VoteIsUnanimous(Eligibilities(ranks, step));
    assert forall i :: 0 <= i < |ranks| ==> Activations(ranks)[i] == Flag(ranks[i].activates);
    assert forall i :: 0 <= i < |ranks| ==> Loaded(ranks, step, mode)[i] == Flag(HasShard(ranks[i], step, mode));
    assert forall i :: 0 <= i < |ranks| ==> Eligibilities(ranks, step)[i] == Flag(Eligible(ranks[i], step));
  }

  /**
   All or none: a rank returns a shard of a step and mode exactly when all ranks ask for that
   positive step and mode and every one of them can activate the mode and deliver its shard;
   in verified mode that includes being verified and on disk everywhere.
   */
  lemma ExactRecoveryTheorem(ranks: seq<Rank>, me: nat, step: int, mode: Mode)
    requires me < |ranks|
    ensures LoadExact(ranks, me) == Shard(step, mode) <==>
        CommonRequest(ranks, step, mode) && EveryRankDelivers(ranks, step, mode)
  {
    AgreementIsCommonRequest(ranks, step, mode);
    VotesAreDelivery(ranks, step, mode);
    if Lower(ranks).ok == 1 {
      CodesAreModes(ranks);
    }
  }

  lemma CodesAreModes(ranks: seq<Rank>)
    requires ranks != [] && Lower(ranks).ok == 1
    ensures Lower(ranks).code == 0 || Lower(ranks).code == 1
  {
    var c := Lower(ranks).code;
    var i :| 0 <= i < |ranks| && Codes(ranks)[i] == c;
    assert Oks(ranks)[i] in Oks(ranks);
  }

  /** A request that some rank finds invalid, or on which two ranks differ, raises on every rank. */
  lemma DisagreementRaises(ranks: seq<Rank>, me: nat)
    requires me < |ranks|
    ensures LoadExact(ranks, me) == Raised <==> !exists step, mode :: CommonRequest(ranks, step, mode)
  {
    var l := Lower(ranks);
    if LoadExact(ranks, me) != Raised {
      CodesAreModes(ranks);
      var mode := if l.code == 0 then LatestGemini else RecoveryVerified;
      AgreementIsCommonRequest(ranks, l.step, mode);
    } else {
      forall step, mode
        ensures !CommonRequest(ranks, step, mode)
      {
        AgreementIsCommonRequest(ranks, step, mode);
      }
    }
  }

  /** Either every rank returns a shard of one step and mode, or no rank returns a shard. */
  lemma AllOrNone(ranks: seq<Rank>, i: nat, j: nat)
    requires i < |ranks| && j < |ranks|
    ensures LoadExact(ranks, i) == LoadExact(ranks, j)
  {
    if LoadExact(ranks, i).Shard? {
      ExactRecoveryTheorem(ranks, i, LoadExact(ranks, i).step, LoadExact(ranks, i).mode);
      ExactRecoveryTheorem(ranks, j, LoadExact(ranks, i).step, LoadExact(ranks, i).mode);
    } else if LoadExact(ranks, j).Shard? {
      ExactRecoveryTheorem(ranks, i, LoadExact(ranks, j).step, LoadExact(ranks, j).mode);
      ExactRecoveryTheorem(ranks, j, LoadExact(ranks, j).step, LoadExact(ranks, j).mode);
    }
    DisagreementRaises(ranks, i);
    DisagreementRaises(ranks, j);
  }
}
