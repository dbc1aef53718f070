/**
 Which rank holds whose replica. Ranks are cut into segments of twice the jump; inside a segment
 the first half is paired with the second, `jump` apart.
 */
module PeerPairing {
  import opened Prelude
  import opened CyclicSums

  datatype PairingError = JumpNotPositive | WorldNotDivisible | RankInNoGroup

  function PeerRank(jump: int, rank: int): int
    requires jump > 0
  {
    var segment := jump * 2;
    var start := (rank / segment) * segment;
    if rank - start < jump then rank + jump else rank - jump
  }

  lemma Ladder(q: int, s: int, d: nat)
    requires d > 0
    ensures q < s ==> q * d + d <= s * d
    ensures q >= s ==> q * d >= s * d
  {
    if q > s {
      Multiples(q, s, d);
    } else {
      Multiples(s, q, d);
    }
  }

  /** A number q*d + o with 0 <= o < d has quotient q. */
  lemma QuotientOf(q: int, d: int, o: int)
    requires d > 0 && 0 <= o < d
    ensures (q * d + o) / d == q
  {
    var x := q * d + o;
    assert x == (x / d) * d + x % d;
    Ladder(x / d, q, d);
    Ladder(q, x / d, d);
  }

  /** A rank's segment number and offset, and its peer in the same segment at the other half. */
  lemma Decompose(jump: int, rank: int) returns (q: int, o: int)
    requires jump > 0
    ensures rank == q * (jump * 2) + o && 0 <= o < jump * 2 && q == rank / (jump * 2)
    ensures PeerRank(jump, rank) == if o < jump then rank + jump else rank - jump
  {
    q := rank / (jump * 2);
    o := rank % (jump * 2);
  }

  lemma PeerAt(jump: int, q: int, o: int)
    requires jump > 0 && 0 <= o < jump * 2
    ensures PeerRank(jump, q * (jump * 2) + o) == q * (jump * 2) + if o < jump then o + jump else o - jump
  {
    QuotientOf(q, jump * 2, o);
  }

  /** Pairing is a fixed-point-free involution. */
  lemma PeerIsInvolution(jump: int, rank: int)
    requires jump > 0
    ensures PeerRank(jump, rank) != rank && PeerRank(jump, PeerRank(jump, rank)) == rank
  {
    var q, o := Decompose(jump, rank);
    PeerAt(jump, q, o);
    PeerAt(jump, q, if o < jump then o + jump else o - jump);
  }

  lemma PeerInRange(world: int, jump: int, rank: int)
    requires jump > 0 && world % (jump * 2) == 0 && 0 <= rank < world
    ensures 0 <= PeerRank(jump, rank) < world
  {
    var q, o := Decompose(jump, rank);
    var d := jump * 2;
    assert world == (world / d) * d;
    Ladder(q, world / d, d);
    Ladder(q, 0, d);
  }

  /** The divisibility demanded of the world size is exactly what keeps every peer inside it. */
  lemma DivisibilityTheorem(world: nat, jump: int)
    requires jump > 0
    ensures world % (jump * 2) == 0 <==> forall rank :: 0 <= rank < world ==> 0 <= PeerRank(jump, rank) < world
  {
    if world % (jump * 2) == 0 {
      forall rank | 0 <= rank < world
        ensures 0 <= PeerRank(jump, rank) < world
      {
        PeerInRange(world, jump, rank);
      }
    } else {
      UnevenWorld(world, jump);
    }
  }

  lemma UnevenWorld(world: nat, jump: int)
    requires jump > 0 && world % (jump * 2) != 0
    ensures exists rank :: 0 <= rank < world && PeerRank(jump, rank) >= world
  {
    var q, over := world / (jump * 2), world % (jump * 2);
    var start := q * (jump * 2);
    assert world == start + over;
    Ladder(q, 0, jump * 2);
    var o := if over <= jump then 0 else over - jump;
    PeerAt(jump, q, o);
    assert PeerRank(jump, start + o) >= world;
  }

  // ---------- enumerating the groups ----------

  type Group = (int, int)

  ghost predicate InGroup(g: Group, rank: int) { g.0 == rank || g.1 == rank }

  // Groups join peers, lower rank first, and ascend by it.
  ghost predicate Pairs(jump: int, groups: seq<Group>)
    requires jump > 0
  {
    && (forall k {:trigger PeerRank(jump, groups[k].0)} :: 0 <= k < |groups| ==>
          groups[k].1 == groups[k].0 + jump == PeerRank(jump, groups[k].0))
    && (forall k, l :: 0 <= k < l < |groups| ==> groups[k].0 < groups[l].0)
  }

  // Every lower half rank below the bound leads a group, and nothing from the bound on does.
  ghost predicate Enumerated(jump: int, groups: seq<Group>, bound: int)
    requires jump > 0
  {
    && (forall r :: 0 <= r < bound && PeerRank(jump, r) > r ==> Leads(groups, r))
    && (forall k :: 0 <= k < |groups| ==> 0 <= groups[k].0 < bound)
  }

  ghost predicate Leads(groups: seq<Group>, r: int) { exists k :: 0 <= k < |groups| && groups[k].0 == r }

  /** The groups listed so far hold no rank twice. */
  lemma InOneGroupOnly(jump: int, groups: seq<Group>, k: nat, l: nat, rank: int)
    requires jump > 0 && Pairs(jump, groups) && k < |groups| && l < |groups|
    requires InGroup(groups[k], rank) && InGroup(groups[l], rank)
    ensures k == l
  {
    PeerIsInvolution(jump, groups[k].0);
    PeerIsInvolution(jump, groups[l].0);
    assert groups[k].0 == groups[l].0;
  }

  // Rank belongs to group k and to no other, and that group is the rank with its computed peer.
  ghost predicate OnlyGroup(jump: int, groups: seq<Group>, rank: int, k: int)
    requires jump > 0
  {
    && 0 <= k < |groups|
    && (groups[k] == (rank, PeerRank(jump, rank)) || groups[k] == (PeerRank(jump, rank), rank))
    && forall l :: 0 <= l < |groups| && InGroup(groups[l], rank) ==> l == k
  }

  ghost predicate InExactlyOne(jump: int, groups: seq<Group>, rank: int)
    requires jump > 0
  {
    exists k :: OnlyGroup(jump, groups, rank, k)
  }

  /** When every segment is enumerated, each rank is in exactly one group: its own pair. */
  lemma EachRankInOneGroup(world: int, jump: int, groups: seq<Group>, rank: int)
    requires jump > 0 && world % (jump * 2) == 0 && Pairs(jump, groups) && Enumerated(jump, groups, world)
    requires 0 <= rank < world
    ensures InExactlyOne(jump, groups, rank)
  {
    var peer := PeerRank(jump, rank);
    PeerIsInvolution(jump, rank);
    PeerInRange(world, jump, rank);
    var low := if peer > rank then rank else peer;
    assert Leads(groups, low);
    var k :| 0 <= k < |groups| && groups[k].0 == low;
    forall l | 0 <= l < |groups| && InGroup(groups[l], rank)
      ensures l == k
    {
      InOneGroupOnly(jump, groups, k, l, rank);
    }
    assert OnlyGroup(jump, groups, rank, k);
  }

  lemma OutsiderInNoGroup(world: int, jump: int, groups: seq<Group>, rank: int)
    requires jump > 0 && world % (jump * 2) == 0 && Pairs(jump, groups) && Enumerated(jump, groups, world)
    requires !(0 <= rank < world)
    ensures forall k :: 0 <= k < |groups| ==> !InGroup(groups[k], rank)
  {
    forall k | 0 <= k < |groups|
      ensures !InGroup(groups[k], rank)
    {
      PeerInRange(world, jump, groups[k].0);
    }
  }

  lemma AddGroup(jump: int, groups: seq<Group>, q: int, o: int)
    requires jump > 0 && 0 <= o < jump && q >= 0
    requires Pairs(jump, groups) && Enumerated(jump, groups, q * (jump * 2) + o)
    ensures var a := q * (jump * 2) + o;
            Pairs(jump, groups + [(a, a + jump)]) && Enumerated(jump, groups + [(a, a + jump)], a + 1)
  {
    PeerAt(jump, q, o);
    assert q * (jump * 2) >= 0;
    AddGroupAt(jump, groups, q * (jump * 2) + o);
  }

  lemma AddGroupAt(jump: int, groups: seq<Group>, a: int)
    requires jump > 0 && a >= 0 && PeerRank(jump, a) == a + jump && Pairs(jump, groups) && Enumerated(jump, groups, a)
    ensures Pairs(jump, groups + [(a, a + jump)]) && Enumerated(jump, groups + [(a, a + jump)], a + 1)
  {
    var groups' := groups + [(a, a + jump)];
    forall k | 0 <= k < |groups'|
      ensures groups'[k].1 == groups'[k].0 + jump == PeerRank(jump, groups'[k].0)
    {
      assert k < |groups| ==> groups'[k] == groups[k] && groups[k].1 == PeerRank(jump, groups[k].0);
    }
    forall k | 0 <= k < |groups|
      ensures groups'[k].0 < a
    {
    }
    forall r | 0 <= r < a + 1 && PeerRank(jump, r) > r
      ensures Leads(groups', r)
    {
      if r == a {
        assert groups'[|groups|].0 == r;
      } else {
        assert Leads(groups, r);
        var k :| 0 <= k < |groups| && groups[k].0 == r;
        assert groups'[k].0 == r;
      }
    }
  }

  lemma SegmentDone(jump: int, groups: seq<Group>, q: int)
    requires jump > 0 && q >= 0 && Enumerated(jump, groups, q * (jump * 2) + jump)
    ensures Enumerated(jump, groups, (q + 1) * (jump * 2))
  {
    assert (q + 1) * (jump * 2) == q * (jump * 2) + jump * 2;
    forall r | q * (jump * 2) + jump <= r < (q + 1) * (jump * 2)
      ensures PeerRank(jump, r) < r
    {
      PeerAt(jump, q, r - q * (jump * 2));
    }
  }

  // The group last seen to contain the rank.
  ghost predicate Mine(groups: seq<Group>, rank: int, mine: Option<nat>) {
    && (mine.Some? ==> mine.value < |groups| && InGroup(groups[mine.value], rank))
    && (mine.None? ==> forall k :: 0 <= k < |groups| ==> !InGroup(groups[k], rank))
  }

  /** Lists the groups of one segment. */
  method EnumerateSegment(jump: int, q: int, rank: int, groups0: seq<Group>, mine0: Option<nat>)
    returns (groups: seq<Group>, mine: Option<nat>)
    requires jump > 0 && q >= 0 && Pairs(jump, groups0) && Enumerated(jump, groups0, q * (jump * 2))
    requires Mine(groups0, rank, mine0)
    ensures Pairs(jump, groups) && Enumerated(jump, groups, q * (jump * 2) + jump) && Mine(groups, rank, mine)
  {
    groups, mine := groups0, mine0;
    var start := q * (jump * 2);
    for offset := 0 to jump
      invariant Pairs(jump, groups) && Enumerated(jump, groups, start + offset) && Mine(groups, rank, mine)
    {
      var a, b := start + offset, start + offset + jump;
      AddGroup(jump, groups, q, offset);
      groups := groups + [(a, b)];
      if rank == a || rank == b {
        mine := Some(|groups| - 1);
      }
    }
  }

  /**
   Validates the jump and the world size, computes the peer and creates all replication groups;
   the result is the peer and this rank's group among them.
   */
  method CreateGroups(jump: int, world: nat, rank: int)
    returns (r: Result<(int, nat), PairingError>, groups: seq<Group>)
    ensures r == Err(JumpNotPositive) <==> jump <= 0
    ensures r == Err(WorldNotDivisible) <==> jump > 0 && world % (jump * 2) != 0
    ensures r == Err(RankInNoGroup) <==> jump > 0 && world % (jump * 2) == 0 && !(0 <= rank < world)
    ensures r.Ok? ==> r.value.0 == PeerRank(jump, rank) && OnlyGroup(jump, groups, rank, r.value.1)
    ensures r.Ok? ==> forall other :: 0 <= other < world ==> InExactlyOne(jump, groups, other)
  {
    groups := [];
    if jump <= 0 {
      return Err(JumpNotPositive), groups;
    }
    if world % (jump * 2) != 0 {
      return Err(WorldNotDivisible), groups;
    }
    var segments := world / (jump * 2);
    assert world == segments * (jump * 2);
    var mine: Option<nat> := None;
    for q := 0 to segments
      invariant Pairs(jump, groups) && Enumerated(jump, groups, q * (jump * 2)) && Mine(groups, rank, mine)
    {
      groups, mine := EnumerateSegment(jump, q, rank, groups, mine);
      SegmentDone(jump, groups, q);
    }
    if 0 <= rank < world {
      EachRankInOneGroup(world, jump, groups, rank);
    } else {
      OutsiderInNoGroup(world, jump, groups, rank);
    }
    forall other | 0 <= other < world
      ensures InExactlyOne(jump, groups, other)
    {
      EachRankInOneGroup(world, jump, groups, other);
    }
    r := if mine.None? then Err(RankInNoGroup) else Ok((PeerRank(jump, rank), mine.value));
  }
}
