/**
 Endpoint localization from overlapping process groups: which endpoint lies in every slow group
 of its resource class and in no healthy one, and for how many rounds it has been the answer.
 */
module CommunicationLocalizer {
  import opened Prelude
  import opened Streak

  datatype Kind = Rank | Node | Hca | Nic
  datatype Metadata = Metadata(node: Option<string>, hca: Option<string>, nic: Option<string>)
  type Roster = map<string, Metadata>

  datatype Observation = Observation(
    group: string,
    members: seq<string>,
    resourceClass: string,
    kind: Kind,
    latency: real,
    baseline: Option<real>,
    failed: bool,
    memberResources: Option<seq<seq<string>>>)

  // What an observation is checked for when it is made.
  ghost predicate WellFormed(o: Observation) {
    && o.members != []
    && (o.memberResources.Some? ==> |o.memberResources.value| == |o.members|)
    && (o.baseline.Some? ==> o.baseline.value > 0.0)
    && (!o.failed ==> o.baseline.Some? && o.latency >= 0.0)
  }

  type Key = (string, Kind)
  datatype Endpoint = Endpoint(key: Key, id: string)

  function KeyOf(o: Observation): Key { (o.resourceClass, o.kind) }

  // ---------- the resources of a group ----------

  function Identity(m: Metadata, kind: Kind): Option<string> {
    match kind
    case Rank => None
    case Node => m.node
    case Hca => m.hca
    case Nic => m.nic
  }

  // The resources one member uses; None when the roster does not say.
  function ResourcesForMember(roster: Roster, o: Observation, i: nat): Option<seq<string>>
    requires i < |o.members| && (o.memberResources.Some? ==> |o.memberResources.value| == |o.members|)
  {
    if o.memberResources.Some? then Some(o.memberResources.value[i])
    else if o.kind.Rank? then Some([o.members[i]])
    else if o.members[i] !in roster then None
    else
      var r := Identity(roster[o.members[i]], o.kind);
      if r.None? || r.value == "" then None else Some([r.value])
  }

  // Member i of the group uses the resource.
  predicate Uses(roster: Roster, o: Observation, i: nat, r: string)
    requires i < |o.members| && (o.memberResources.Some? ==> |o.memberResources.value| == |o.members|)
  {
    var m := ResourcesForMember(roster, o, i);
    m.Some? && r in m.value
  }

  ghost predicate Known(roster: Roster, o: Observation)
    requires WellFormed(o)
  {
    forall i :: 0 <= i < |o.members| ==> ResourcesForMember(roster, o, i).Some?
  }

  ghost predicate Touches(roster: Roster, o: Observation, r: string)
    requires WellFormed(o)
  {
    exists i :: 0 <= i < |o.members| && Uses(roster, o, i, r)
  }

  // The roster names r as the identity of the member's node, HCA or NIC, whichever the kind asks for.
  ghost predicate RosterNames(roster: Roster, member: string, kind: Kind, r: string) {
    && member in roster && r != ""
    && (|| (kind.Node? && roster[member].node == Some(r)) || (kind.Hca? && roster[member].hca == Some(r))
        || (kind.Nic? && roster[member].nic == Some(r)))
  }

  /** A group touches its members' listed resources; without a list the ranks themselves or what the roster names. */
  lemma TouchesIff(roster: Roster, o: Observation, r: string)
    requires WellFormed(o)
    ensures o.memberResources.Some? ==>
              (Touches(roster, o, r) <==> exists i :: 0 <= i < |o.members| && r in o.memberResources.value[i])
    ensures o.memberResources.None? && o.kind.Rank? ==> (Touches(roster, o, r) <==> r in o.members)
    ensures o.memberResources.None? && !o.kind.Rank? ==>
              (Touches(roster, o, r) <==> exists m :: m in o.members && RosterNames(roster, m, o.kind, r))
  {
    forall i | 0 <= i < |o.members| && o.memberResources.Some?
      ensures Uses(roster, o, i, r) <==> r in o.memberResources.value[i]
    {
    }
    forall i | 0 <= i < |o.members| && o.memberResources.None?
      ensures Uses(roster, o, i, r) <==>
              if o.kind.Rank? then r == o.members[i] else RosterNames(roster, o.members[i], o.kind, r)
    {
    }
    if o.memberResources.None? && !o.kind.Rank? {
      if m :| m in o.members && RosterNames(roster, m, o.kind, r) {
        var i :| 0 <= i < |o.members| && o.members[i] == m;
        assert Uses(roster, o, i, r);
      }
    }
  }

  // `s` is the set of resources the group touches.
  ghost predicate ResourceSet(roster: Roster, o: Observation, s: set<string>)
    requires WellFormed(o)
  {
    forall r :: r in s <==> Touches(roster, o, r)
  }

  /** Collects the resources of a group; None when a member's resource is missing from the roster. */
  method Resources(roster: Roster, o: Observation) returns (s: Option<set<string>>)
    requires WellFormed(o)
    ensures s.Some? <==> Known(roster, o)
    ensures s.Some? ==> ResourceSet(roster, o, s.value)
  {
    var found: set<string> := {};
    for i := 0 to |o.members|
      invariant forall j :: 0 <= j < i ==> ResourcesForMember(roster, o, j).Some?
      invariant forall r :: r in found <==> exists j :: 0 <= j < i && Uses(roster, o, j, r)
    {
      var m := ResourcesForMember(roster, o, i);
      if m.None? {
        return None;
      }
      assert forall r :: r in ToSet(m.value) <==> Uses(roster, o, i, r);
      found := found + ToSet(m.value);
    }
    s := Some(found);
  }

  // ---------- what a round says about an endpoint ----------

  // The groups that count in one round: slow ones without a known compute straggler, and healthy ones.
  datatype Round = Round(roster: Roster, slow: seq<Observation>, healthy: seq<Observation>, minSlow: nat) {
    ghost predicate Valid() {
      (forall o :: o in slow ==> WellFormed(o)) && (forall o :: o in healthy ==> WellFormed(o)) && minSlow >= 2
    }

    ghost predicate IsSlow(o: Observation, key: Key) { o in slow && KeyOf(o) == key }

    ghost predicate IsHealthy(o: Observation, key: Key) { o in healthy && KeyOf(o) == key }

    // No healthy group of its class touches the endpoint.
    ghost predicate Clean(e: Endpoint)
      requires Valid()
    {
      forall o :: IsHealthy(o, e.key) ==> !Touches(roster, o, e.id)
    }

    // Every slow group of its class, of which there is one, touches the endpoint; no healthy one does.
    ghost predicate Implicated(e: Endpoint)
      requires Valid()
    {
      (exists o :: IsSlow(o, e.key)) && (forall o :: IsSlow(o, e.key) ==> Touches(roster, o, e.id)) && Clean(e)
    }

    ghost function Groups(key: Key): set<string> { set o | o in slow && IsSlow(o, key) :: o.group }

    ghost function Supporting(e: Endpoint): set<string>
      requires Valid()
    {
      set o | o in slow && IsSlow(o, e.key) && Touches(roster, o, e.id) :: o.group
    }

    // Two slow groups of the class touch different resources.
    ghost predicate Independent(key: Key)
      requires Valid()
    {
      exists a, b :: IsSlow(a, key) && IsSlow(b, key) && !SameIncidence(roster, a, b)
    }

    ghost predicate Enough(key: Key)
      requires Valid()
    {
      |Groups(key)| >= minSlow && Independent(key)
    }

    // A clean endpoint in enough slow groups of its class.
    ghost predicate Partial(e: Endpoint)
      requires Valid()
    {
      Clean(e) && |Supporting(e)| >= minSlow
    }

    // A roster entry the round needs is missing.
    ghost predicate Unknown()
      requires Valid()
    {
      || (exists o :: o in slow && !Known(roster, o))
      || (exists o :: o in healthy && Enough(KeyOf(o)) && !Known(roster, o))
    }

    // The one endpoint that explains the round: all slow classes have enough evidence, it alone is
    // implicated, and every partly supported endpoint is of its class.
    ghost predicate Explains(e: Endpoint)
      requires Valid()
    {
      && (forall o :: o in slow ==> Enough(KeyOf(o)))
      && Implicated(e)
      && (forall f :: Implicated(f) ==> f == e)
      && (forall f :: Partial(f) ==> f.key == e.key)
    }

    // Some endpoint of a class with enough evidence is implicated or partly supported.
    ghost predicate HasCandidate()
      requires Valid()
    {
      exists e: Endpoint :: Enough(e.key) && (Implicated(e) || Partial(e))
    }
  }

  ghost predicate SameIncidence(roster: Roster, a: Observation, b: Observation)
    requires WellFormed(a) && WellFormed(b)
  {
    forall r :: Touches(roster, a, r) <==> Touches(roster, b, r)
  }

  // Every counted slow group of its class touches the endpoint, no healthy one does, and there is enough evidence.
  ghost predicate SharedBySlowOnly(rd: Round, e: Endpoint)
    requires rd.Valid()
  {
    && (forall o :: o in rd.slow && KeyOf(o) == e.key ==> Touches(rd.roster, o, e.id))
    && (forall o :: o in rd.healthy && KeyOf(o) == e.key ==> !Touches(rd.roster, o, e.id))
    && rd.Enough(e.key)
  }

  lemma ExplainsMeansShared(rd: Round, e: Endpoint)
    requires rd.Valid() && rd.Explains(e)
    ensures SharedBySlowOnly(rd, e)
  {
    var s :| rd.IsSlow(s, e.key);
    assert forall o :: rd.IsSlow(o, e.key) <==> o in rd.slow && KeyOf(o) == e.key;
    assert forall o :: rd.IsHealthy(o, e.key) <==> o in rd.healthy && KeyOf(o) == e.key;
  }

  /** When a true culprit touches every slow group of its class and no healthy one, nothing else is localized. */
  lemma CulpritIsTheOnlyAnswer(rd: Round, culprit: Endpoint, e: Endpoint)
    requires rd.Valid() && rd.Explains(e)
    requires exists o :: o in rd.slow && KeyOf(o) == culprit.key
    requires forall o :: o in rd.slow && KeyOf(o) == culprit.key ==> Touches(rd.roster, o, culprit.id)
    requires forall o :: o in rd.healthy && KeyOf(o) == culprit.key ==> !Touches(rd.roster, o, culprit.id)
    ensures e == culprit
  {
    var o :| o in rd.slow && KeyOf(o) == culprit.key;
    assert rd.IsSlow(o, culprit.key);
    assert rd.Implicated(culprit);
  }

  // ---------- one class ----------

  datatype ClassReport = Insufficient | Exact(ids: set<string>) | Weighted(ids: set<string>)

  ghost predicate Reported(rd: Round, key: Key, report: ClassReport)
    requires rd.Valid()
  {
    match report
    case Insufficient => !rd.Enough(key)
    case Exact(ids) => rd.Enough(key) && ids != {} && forall id :: id in ids <==> rd.Implicated(Endpoint(key, id))
    case Weighted(ids) =>
      && rd.Enough(key) && (forall id :: !rd.Implicated(Endpoint(key, id)))
      && (forall id :: id in ids <==> rd.Partial(Endpoint(key, id)))
  }

  // The groups of one class, slow or healthy, in observation order.
  ghost predicate OfClass(obs: seq<Observation>, key: Key, part: seq<Observation>) {
    forall o :: o in part <==> o in obs && KeyOf(o) == key
  }

  ghost predicate AreResources(roster: Roster, obs: seq<Observation>, sets: seq<set<string>>)
    requires forall o :: o in obs ==> WellFormed(o)
  {
    |sets| == |obs| && forall i :: 0 <= i < |obs| ==> ResourceSet(roster, obs[i], sets[i])
  }

  method ResourceSets(roster: Roster, obs: seq<Observation>) returns (sets: Option<seq<set<string>>>)
    requires forall o :: o in obs ==> WellFormed(o)
    ensures sets.Some? <==> forall o :: o in obs ==> Known(roster, o)
    ensures sets.Some? ==> AreResources(roster, obs, sets.value)
  {
    var found: seq<set<string>> := [];
    for i := 0 to |obs|
      invariant |found| == i
      invariant forall j :: 0 <= j < i ==> Known(roster, obs[j]) && ResourceSet(roster, obs[j], found[j])
    {
      var s := Resources(roster, obs[i]);
      if s.None? {
        return None;
      }
      found := found + [s.value];
    }
    sets := Some(found);
  }

  method GroupIds(obs: seq<Observation>) returns (ids: set<string>)
    ensures ids == set o | o in obs :: o.group
  {
    ids := {};
    for i := 0 to |obs|
      invariant ids == set o | o in obs[..i] :: o.group
    {
      ids := ids + {obs[i].group};
    }
    assert obs[..|obs|] == obs;
  }

  function Intersection(sets: seq<set<string>>): (common: set<string>)
    requires sets != []
    ensures forall r :: r in common <==> forall i :: 0 <= i < |sets| ==> r in sets[i]
  {
    if |sets| == 1 then sets[0] else Intersection(sets[..|sets| - 1]) * sets[|sets| - 1]
  }

  // Which groups each clean resource supports.
  ghost predicate Supports(obs: seq<Observation>, sets: seq<set<string>>, exclude: set<string>,
                           support: map<string, set<string>>)
    requires |sets| == |obs|
  {
    && (forall r :: r in support <==> r in Union(sets) - exclude)
    && (forall r :: r in support ==> support[r] == set i | 0 <= i < |obs| && r in sets[i] :: obs[i].group)
  }

  // The support with one more group.
  function MoreSupport(support: map<string, set<string>>, exclude: set<string>, o: Observation, s: set<string>)
    : map<string, set<string>>
  {
    map r | r in support.Keys + (s - exclude) ::
      (if r in support then support[r] else {}) + (if r in s - exclude then {o.group} else {})
  }

  method CountSupport(obs: seq<Observation>, sets: seq<set<string>>, exclude: set<string>)
    returns (support: map<string, set<string>>)
    requires |sets| == |obs|
    ensures Supports(obs, sets, exclude, support)
  {
    support := map[];
    for i := 0 to |obs|
      invariant Supports(obs[..i], sets[..i], exclude, support)
    {
      SupportStep(obs[..i], sets[..i], exclude, support, obs[i], sets[i]);
      assert obs[..i + 1] == obs[..i] + [obs[i]] && sets[..i + 1] == sets[..i] + [sets[i]];
      support := MoreSupport(support, exclude, obs[i], sets[i]);
    }
    assert obs[..|obs|] == obs && sets[..|obs|] == sets;
  }

  lemma UnionGrows(sets: seq<set<string>>, s: set<string>)
    ensures Union(sets + [s]) == Union(sets) + s
  {
    assert (sets + [s])[..|sets|] == sets;
  }

  lemma GroupsGrow(obs: seq<Observation>, sets: seq<set<string>>, o: Observation, s: set<string>, r: string)
    requires |sets| == |obs|
    ensures var obs', sets' := obs + [o], sets + [s];
            (set i | 0 <= i < |obs'| && r in sets'[i] :: obs'[i].group)
              == (set i | 0 <= i < |obs| && r in sets[i] :: obs[i].group) + (if r in s then {o.group} else {})
  {
    var obs', sets' := obs + [o], sets + [s];
    assert obs'[|obs|] == o && sets'[|obs|] == s;
    assert forall i :: 0 <= i < |obs| ==> obs'[i] == obs[i] && sets'[i] == sets[i];
  }

  lemma SupportStep(obs: seq<Observation>, sets: seq<set<string>>, exclude: set<string>,
                    support: map<string, set<string>>, o: Observation, s: set<string>)
    requires |sets| == |obs| && Supports(obs, sets, exclude, support)
    ensures Supports(obs + [o], sets + [s], exclude, MoreSupport(support, exclude, o, s))
  {
    var obs', sets', next := obs + [o], sets + [s], MoreSupport(support, exclude, o, s);
    UnionGrows(sets, s);
    forall r | r in next
      ensures next[r] == set i | 0 <= i < |obs'| && r in sets'[i] :: obs'[i].group
    {
      GroupsGrow(obs, sets, o, s, r);
      if r !in support {
        assert r !in Union(sets);
      }
    }
  }

  // The class's slow groups, its healthy ones, and their resources.
  ghost predicate Gathered(rd: Round, key: Key, slow: seq<Observation>, slowSets: seq<set<string>>,
                           healthy: seq<Observation>, healthySets: seq<set<string>>)
    requires rd.Valid()
  {
    && slow != [] && OfClass(rd.slow, key, slow) && OfClass(rd.healthy, key, healthy)
    && AreResources(rd.roster, slow, slowSets) && AreResources(rd.roster, healthy, healthySets)
  }

  lemma CommonIsImplicated(rd: Round, key: Key, slow: seq<Observation>, slowSets: seq<set<string>>,
                           healthy: seq<Observation>, healthySets: seq<set<string>>, id: string)
    requires rd.Valid() && Gathered(rd, key, slow, slowSets, healthy, healthySets)
    ensures id !in Union(healthySets) <==> rd.Clean(Endpoint(key, id))
    ensures id in Intersection(slowSets) - Union(healthySets) <==> rd.Implicated(Endpoint(key, id))
  {
    var e := Endpoint(key, id);
    assert rd.IsSlow(slow[0], key);
    assert forall o :: rd.IsSlow(o, key) <==> o in slow;
    assert forall o :: rd.IsHealthy(o, key) <==> o in healthy;
    assert forall i :: 0 <= i < |slow| ==> (id in slowSets[i] <==> Touches(rd.roster, slow[i], id));
    assert forall i :: 0 <= i < |healthy| ==> (id in healthySets[i] <==> Touches(rd.roster, healthy[i], id));
  }

  lemma SupportIsPartial(rd: Round, key: Key, slow: seq<Observation>, slowSets: seq<set<string>>,
                         healthy: seq<Observation>, healthySets: seq<set<string>>, support: map<string, set<string>>,
                             id: string)
    requires rd.Valid() && Gathered(rd, key, slow, slowSets, healthy, healthySets)
    requires Supports(slow, slowSets, Union(healthySets), support)
    ensures id in support && |support[id]| >= rd.minSlow <==> rd.Partial(Endpoint(key, id))
  {
    var e := Endpoint(key, id);
    CommonIsImplicated(rd, key, slow, slowSets, healthy, healthySets, id);
    var groups := set i | 0 <= i < |slow| && id in slowSets[i] :: slow[i].group;
    SupportingGroups(rd, key, slow, slowSets, id);
    if id !in Union(slowSets) {
      assert groups == {};
    }
  }

  lemma SupportingGroups(rd: Round, key: Key, slow: seq<Observation>, slowSets: seq<set<string>>, id: string)
    requires rd.Valid() && OfClass(rd.slow, key, slow) && AreResources(rd.roster, slow, slowSets)
    ensures (set i | 0 <= i < |slow| && id in slowSets[i] :: slow[i].group) == rd.Supporting(Endpoint(key, id))
  {
  }

  lemma PatternsAreIndependent(rd: Round, key: Key, slow: seq<Observation>, slowSets: seq<set<string>>)
    requires rd.Valid() && slow != [] && OfClass(rd.slow, key, slow) && AreResources(rd.roster, slow, slowSets)
    ensures (exists i :: 0 <= i < |slowSets| && slowSets[i] != slowSets[0]) <==> rd.Independent(key)
  {
    if i :| 0 <= i < |slowSets| && slowSets[i] != slowSets[0] {
      assert rd.IsSlow(slow[0], key) && rd.IsSlow(slow[i], key);
    } else {
      forall a, b | rd.IsSlow(a, key) && rd.IsSlow(b, key)
        ensures SameIncidence(rd.roster, a, b)
      {
        var i :| 0 <= i < |slow| && slow[i] == a;
        var j :| 0 <= j < |slow| && slow[j] == b;
      }
    }
  }

  function Patterns(sets: seq<set<string>>): set<set<string>> { set s | s in sets }

  lemma TwoPatterns(sets: seq<set<string>>)
    requires sets != []
    ensures |Patterns(sets)| < 2 <==> forall i :: 0 <= i < |sets| ==> sets[i] == sets[0]
  {
    assert sets[0] in Patterns(sets);
    if forall i :: 0 <= i < |sets| ==> sets[i] == sets[0] {
      assert Patterns(sets) == {sets[0]};
    } else {
      var i :| 0 <= i < |sets| && sets[i] != sets[0];
      assert Patterns(sets) == {sets[0], sets[i]} + (Patterns(sets) - {sets[0], sets[i]});
    }
  }

  lemma ClassGroups(rd: Round, key: Key, slow: seq<Observation>)
    requires OfClass(rd.slow, key, slow)
    ensures (set o | o in slow :: o.group) == rd.Groups(key)
  {
  }

  // A roster entry needed for this class is missing.
  ghost predicate ClassUnknown(rd: Round, key: Key)
    requires rd.Valid()
  {
    || (exists o :: rd.IsSlow(o, key) && !Known(rd.roster, o))
    || (rd.Enough(key) && exists o :: rd.IsHealthy(o, key) && !Known(rd.roster, o))
  }

  /** Whether the class's slow groups suffice, and their resources; None when a resource is missing. */
  method SlowEvidence(rd: Round, key: Key, slow: seq<Observation>) returns (r: Option<(bool, seq<set<string>>)>)
    requires rd.Valid() && slow != [] && OfClass(rd.slow, key, slow)
    ensures r.None? <==> exists o :: rd.IsSlow(o, key) && !Known(rd.roster, o)
    ensures r.Some? ==> (r.value.0 <==> rd.Enough(key)) && AreResources(rd.roster, slow, r.value.1)
  {
    assert forall o :: rd.IsSlow(o, key) <==> o in slow;
    var ids := GroupIds(slow);
    var sets := ResourceSets(rd.roster, slow);
    if sets.None? {
      return None;
    }
    ClassGroups(rd, key, slow);
    PatternsAreIndependent(rd, key, slow, sets.value);
    TwoPatterns(sets.value);
    r := Some((|ids| >= rd.minSlow && |Patterns(sets.value)| >= 2, sets.value));
  }

  /** Judges one class of slow groups against its healthy groups. */
  method ReportClass(rd: Round, key: Key, slow: seq<Observation>, healthy: seq<Observation>)
    returns (r: Option<ClassReport>)
    requires rd.Valid() && slow != [] && OfClass(rd.slow, key, slow) && OfClass(rd.healthy, key, healthy)
    ensures r.None? <==> ClassUnknown(rd, key)
    ensures r.Some? ==> Reported(rd, key, r.value)
  {
    assert forall o :: rd.IsHealthy(o, key) <==> o in healthy;
    var evidence := SlowEvidence(rd, key, slow);
    if evidence.None? {
      return None;
    }
    if !evidence.value.0 {
      return Some(Insufficient);
    }
    var sets := evidence.value.1;
    var healthySets := ResourceSets(rd.roster, healthy);
    if healthySets.None? {
      return None;
    }
    var report := Judge(rd, key, slow, sets, healthy, healthySets.value);
    r := Some(report);
  }

  method Judge(rd: Round, key: Key, slow: seq<Observation>, slowSets: seq<set<string>>,
               healthy: seq<Observation>, healthySets: seq<set<string>>) returns (report: ClassReport)
    requires rd.Valid() && Gathered(rd, key, slow, slowSets, healthy, healthySets) && rd.Enough(key)
    ensures Reported(rd, key, report)
  {
    var contradicted := Union(healthySets);
    var common := Intersection(slowSets) - contradicted;
    forall id
      ensures id in common <==> rd.Implicated(Endpoint(key, id))
    {
      CommonIsImplicated(rd, key, slow, slowSets, healthy, healthySets, id);
    }
    if common != {} {
      return Exact(common);
    }
    var support := CountSupport(slow, slowSets, contradicted);
    forall id
      ensures id in support && |support[id]| >= rd.minSlow <==> rd.Partial(Endpoint(key, id))
    {
      SupportIsPartial(rd, key, slow, slowSets, healthy, healthySets, support, id);
    }
    report := Weighted(set id | id in support && |support[id]| >= rd.minSlow);
  }

  // ---------- one round ----------

  // Grouping by class, in order of first appearance.
  ghost predicate Grouped(obs: seq<Observation>, keys: seq<Key>, grouped: map<Key, seq<Observation>>) {
    && (forall k :: k in keys <==> k in grouped)
    && (forall k :: k in grouped ==> grouped[k] != [] && OfClass(obs, k, grouped[k]))
    && (forall o :: o in obs ==> KeyOf(o) in grouped)
    && (forall i, j :: 0 <= i < j < |keys| ==> keys[i] != keys[j])
  }

  // The grouping with one more observation.
  function WithKey(keys: seq<Key>, grouped: map<Key, seq<Observation>>, o: Observation): seq<Key> {
    if KeyOf(o) in grouped then keys else keys + [KeyOf(o)]
  }

  function WithMember(grouped: map<Key, seq<Observation>>, o: Observation): map<Key, seq<Observation>> {
    grouped[KeyOf(o) := (if KeyOf(o) in grouped then grouped[KeyOf(o)] else []) + [o]]
  }

  lemma GroupedStep(obs: seq<Observation>, keys: seq<Key>, grouped: map<Key, seq<Observation>>, o: Observation)
    requires Grouped(obs, keys, grouped)
    ensures Grouped(obs + [o], WithKey(keys, grouped, o), WithMember(grouped, o))
  {
    var grouped' := WithMember(grouped, o);
    forall k | k in grouped'
      ensures OfClass(obs + [o], k, grouped'[k])
    {
      if k in grouped {
        assert OfClass(obs, k, grouped[k]);
      }
    }
  }

  method ByResourceClass(obs: seq<Observation>) returns (keys: seq<Key>, grouped: map<Key, seq<Observation>>)
    ensures Grouped(obs, keys, grouped)
  {
    keys, grouped := [], map[];
    for i := 0 to |obs|
      invariant Grouped(obs[..i], keys, grouped)
    {
      GroupedStep(obs[..i], keys, grouped, obs[i]);
      assert obs[..i + 1] == obs[..i] + [obs[i]];
      keys, grouped := WithKey(keys, grouped, obs[i]), WithMember(grouped, obs[i]);
    }
    assert obs[..|obs|] == obs;
  }

  // What the classes visited so far contribute.
  datatype Tally = Tally(exact: set<Endpoint>, partial: set<Endpoint>, insufficient: bool)

  ghost predicate Tallied(rd: Round, done: seq<Key>, t: Tally)
    requires rd.Valid()
  {
    && (forall e :: e in t.exact <==> e.key in done && rd.Enough(e.key) && rd.Implicated(e))
    && (forall e :: e in t.partial <==>
        e.key in done && rd.Enough(e.key) && rd.Partial(e) && !ClassExplained(rd, e.key))
    && (t.insufficient <==> exists k :: k in done && !rd.Enough(k))
  }

  ghost predicate ClassExplained(rd: Round, key: Key)
    requires rd.Valid()
  {
    exists id :: rd.Implicated(Endpoint(key, id))
  }

  function AddReport(t: Tally, key: Key, report: ClassReport): Tally {
    match report
    case Insufficient => t.(insufficient := true)
    case Exact(ids) => t.(exact := t.exact + set id | id in ids :: Endpoint(key, id))
    case Weighted(ids) => t.(partial := t.partial + set id | id in ids :: Endpoint(key, id))
  }

  lemma AddReportTallies(rd: Round, done: seq<Key>, t: Tally, key: Key, report: ClassReport)
    requires rd.Valid() && Tallied(rd, done, t) && Reported(rd, key, report) && key !in done
    ensures Tallied(rd, done + [key], AddReport(t, key, report))
  {
  }

  // The given keys are the classes of the slow groups.
  ghost predicate SlowClasses(rd: Round, keys: seq<Key>) {
    (forall o :: o in rd.slow ==> KeyOf(o) in keys) && (forall k :: k in keys ==> exists o :: rd.IsSlow(o, k))
  }

  lemma GroupedClasses(rd: Round, keys: seq<Key>, grouped: map<Key, seq<Observation>>)
    requires Grouped(rd.slow, keys, grouped)
    ensures SlowClasses(rd, keys)
  {
    forall k | k in keys
      ensures exists o :: rd.IsSlow(o, k)
    {
      assert grouped[k][0] in grouped[k];
      assert rd.IsSlow(grouped[k][0], k);
    }
  }

  // The first i classes are judged and in the tally.
  ghost predicate Visited(rd: Round, keys: seq<Key>, i: nat, t: Tally)
    requires rd.Valid()
  {
    i <= |keys| && Tallied(rd, keys[..i], t) && forall j :: 0 <= j < i ==> !ClassUnknown(rd, keys[j])
  }

  /** Judges one more class; None when a roster entry it needs is missing. */
  method VisitClass(rd: Round, keys: seq<Key>, i: nat, slow: map<Key, seq<Observation>>,
                    healthyKeys: seq<Key>, healthy: map<Key, seq<Observation>>, t: Tally) returns (r: Option<Tally>)
    requires rd.Valid() && Grouped(rd.slow, keys, slow) && Grouped(rd.healthy, healthyKeys, healthy)
    requires i < |keys| && Visited(rd, keys, i, t)
    ensures r.None? <==> ClassUnknown(rd, keys[i])
    ensures r.Some? ==> Visited(rd, keys, i + 1, r.value)
  {
    var key := keys[i];
    var part := if key in healthy then healthy[key] else [];
    assert OfClass(rd.healthy, key, part);
    var report := ReportClass(rd, key, slow[key], part);
    if report.None? {
      return None;
    }
    AddReportTallies(rd, keys[..i], t, key, report.value);
    assert keys[..i + 1] == keys[..i] + [key];
    r := Some(AddReport(t, key, report.value));
  }

  method VisitClasses(rd: Round, keys: seq<Key>, slow: map<Key, seq<Observation>>,
                      healthyKeys: seq<Key>, healthy: map<Key, seq<Observation>>) returns (t: Option<Tally>)
    requires rd.Valid() && Grouped(rd.slow, keys, slow) && Grouped(rd.healthy, healthyKeys, healthy)
    ensures t.None? <==> exists k :: k in keys && ClassUnknown(rd, k)
    ensures t.Some? ==> Tallied(rd, keys, t.value)
  {
    var tally := Tally({}, {}, false);
    for i := 0 to |keys|
      invariant Visited(rd, keys, i, tally)
    {
      var next := VisitClass(rd, keys, i, slow, healthyKeys, healthy, tally);
      if next.None? {
        return None;
      }
      tally := next.value;
    }
    assert keys[..|keys|] == keys;
    t := Some(tally);
  }

  /** Visits the classes of slow groups in turn; None when a needed roster entry is missing. */
  method TallyClasses(rd: Round) returns (t: Option<Tally>, ghost done: seq<Key>)
    requires rd.Valid()
    ensures t.None? <==> rd.Unknown()
    ensures t.Some? ==> SlowClasses(rd, done) && Tallied(rd, done, t.value)
  {
    var keys, slow := ByResourceClass(rd.slow);
    var healthyKeys, healthy := ByResourceClass(rd.healthy);
    GroupedClasses(rd, keys, slow);
    t := VisitClasses(rd, keys, slow, healthyKeys, healthy);
    done := keys;
  }

  datatype Verdict =
    | Normal
    | Localized(suspect: Endpoint, confirmed: bool, streak: nat)
    | Ambiguous
    | Inconclusive

  function Answer(v: Verdict): Option<Endpoint> { if v.Localized? then Some(v.suspect) else None }

  // What the round answers, before the streak is considered.
  ghost predicate Names(rd: Round, named: Option<Endpoint>)
    requires rd.Valid()
  {
    if named.Some? then rd.slow != [] && rd.Explains(named.value) else rd.slow == [] || forall e :: !rd.Explains(e)
  }

  lemma SoleExactExplains(rd: Round, done: seq<Key>, t: Tally, e: Endpoint)
    requires rd.Valid() && SlowClasses(rd, done) && Tallied(rd, done, t)
    requires t.exact == {e} && t.partial == {} && !t.insufficient
    ensures rd.Explains(e)
  {
  }

  lemma ExplainsIsSoleExact(rd: Round, done: seq<Key>, t: Tally, e: Endpoint)
    requires rd.Valid() && SlowClasses(rd, done) && Tallied(rd, done, t) && rd.Explains(e)
    ensures t.exact == {e} && t.partial == {} && !t.insufficient
  {
  }

  lemma CandidatesTallied(rd: Round, done: seq<Key>, t: Tally)
    requires rd.Valid() && SlowClasses(rd, done) && Tallied(rd, done, t)
    ensures t.exact + t.partial != {} <==> rd.HasCandidate()
  {
  }

  // The counted groups of a round: partition of the observations by their normalized latency.
  ghost predicate Counted(obs: seq<Observation>, stragglers: set<string>, slowFactor: real, healthyFactor: real,
                          rd: Round) {
    && (forall o :: o in rd.slow <==> o in obs && AtLeast(o, slowFactor) && !HasStraggler(o, stragglers))
    && (forall o :: o in rd.healthy <==> o in obs && !AtLeast(o, slowFactor) && AtMost(o, healthyFactor))
  }

  // The latency over the group's own baseline; a failed collective is infinitely slow.
  predicate AtLeast(o: Observation, factor: real) {
    o.failed || (o.baseline.Some? && o.baseline.value > 0.0 && o.latency / o.baseline.value >= factor)
  }

  predicate AtMost(o: Observation, factor: real) {
    !o.failed && o.baseline.Some? && o.baseline.value > 0.0 && o.latency / o.baseline.value <= factor
  }

  lemma Quotient(x: real, b: real, factor: real)
    requires b > 0.0
    ensures x / b >= factor <==> x >= factor * b
    ensures x / b <= factor <==> x <= factor * b
  {
    var q := x / b;
    assert q * b == x;
    if q > factor {
      Scaled(b, q - factor);
    } else if q < factor {
      Scaled(b, factor - q);
    }
  }

  lemma Scaled(a: real, b: real)
    requires a > 0.0 && b > 0.0
    ensures a * b > 0.0
  {
  }

  /** A group is slow from factor times its own baseline on, or when it failed; failed groups are never healthy. */
  lemma SlowIff(o: Observation, factor: real)
    requires WellFormed(o)
    ensures AtLeast(o, factor) <==> o.failed || o.latency >= factor * o.baseline.value
    ensures AtMost(o, factor) <==> !o.failed && o.latency <= factor * o.baseline.value
  {
    if !o.failed {
      Quotient(o.latency, o.baseline.value, factor);
    }
  }

  predicate HasStraggler(o: Observation, stragglers: set<string>) { ToSet(o.members) * stragglers != {} }

  class Localizer {
    const roster: Roster
    const slowFactor: real
    const healthyFactor: real
    const persistence: nat
    const minSlow: nat
    var lastCandidate: Option<Endpoint>
    var streak: nat
    // The endpoint localized by each completed round.
    ghost var history: seq<Option<Endpoint>>

    ghost predicate Valid()
      reads this
    {
      && 1.0 <= healthyFactor < slowFactor && persistence >= 1 && minSlow >= 2
      && After(history) == Confirmation(lastCandidate, streak)
    }

    constructor (roster: Roster, slowFactor: real, healthyFactor: real, persistence: nat, minSlow: nat)
      requires 1.0 <= healthyFactor < slowFactor && persistence >= 1 && minSlow >= 2
      ensures Valid() && history == []
      ensures this.roster == roster && this.slowFactor == slowFactor && this.healthyFactor == healthyFactor
      ensures this.persistence == persistence && this.minSlow == minSlow
    {
      this.roster, this.slowFactor, this.healthyFactor := roster, slowFactor, healthyFactor;
      this.persistence, this.minSlow := persistence, minSlow;
      lastCandidate, streak, history := None, 0, [];
    }

    /** Splits the observations into counted slow groups and healthy groups. */
    method Partition(obs: seq<Observation>, stragglers: set<string>) returns (rd: Round)
      requires Valid() && forall o :: o in obs ==> WellFormed(o)
      ensures rd.Valid() && rd.roster == roster && rd.minSlow == minSlow
      ensures Counted(obs, stragglers, slowFactor, healthyFactor, rd)
    {
      var slow, healthy := [], [];
      for i := 0 to |obs|
        invariant Counted(obs[..i], stragglers, slowFactor, healthyFactor, Round(roster, slow, healthy, minSlow))
      {
        var o := obs[i];
        assert obs[..i + 1] == obs[..i] + [o];
        if AtLeast(o, slowFactor) {
          if !HasStraggler(o, stragglers) {
            slow := slow + [o];
          }
        } else if AtMost(o, healthyFactor) {
          healthy := healthy + [o];
        }
      }
      assert obs[..|obs|] == obs;
      rd := Round(roster, slow, healthy, minSlow);
    }

    method Record(named: Option<Endpoint>)
      requires Valid()
      modifies this
      ensures Valid() && history == old(history) + [named]
      ensures Confirmation(lastCandidate, streak) == Note(old(Confirmation(lastCandidate, streak)), named)
    {
      ghost var before := history;
      history := history + [named];
      assert history[..|history| - 1] == before;
      if named.None? {
        lastCandidate, streak := None, 0;
      } else {
        streak := if named == lastCandidate then streak + 1 else 1;
        lastCandidate := named;
      }
    }

    /**
     One round. A missing roster entry fails it and changes nothing; otherwise the verdict names the one
     endpoint that explains the counted groups, and is confirmed exactly when the last `persistence`
     completed rounds all named that endpoint.
     */
    method Observe(obs: seq<Observation>, stragglers: set<string>) returns (v: Option<Verdict>, ghost rd: Round)
      requires Valid() && forall o :: o in obs ==> WellFormed(o)
      modifies this
      ensures Valid() && rd.Valid() && rd.roster == roster && rd.minSlow == minSlow
      ensures Counted(obs, stragglers, slowFactor, healthyFactor, rd)
      ensures v.None? <==> rd.slow != [] && rd.Unknown()
      ensures v.None? ==> history == old(history) && lastCandidate == old(lastCandidate) && streak == old(streak)
      ensures v.Some? ==> Names(rd, Answer(v.value)) && history == old(history) + [Answer(v.value)]
      ensures v == Some(Normal) <==> rd.slow == []
      ensures v.Some? && v.value.Localized? ==> SharedBySlowOnly(rd, v.value.suspect)
      ensures v.Some? && rd.slow != [] && !v.value.Localized? ==> (v.value == Ambiguous <==> rd.HasCandidate())
      ensures v.Some? && v.value.Localized? ==>
          (v.value.confirmed <==> LastRounds(history, persistence, v.value.suspect))
    {
      var round := Partition(obs, stragglers);
      rd := round;
      if round.slow == [] {
        assert Names(rd, None);
        Record(None);
        return Some(Normal), rd;
      }
      var t; ghost var done;
      t, done := TallyClasses(round);
      if t.None? {
        return None, rd;
      }
      var named := Decide(round, done, t.value);
      Record(named);
      CandidatesTallied(rd, done, t.value);
      if named.Some? {
        ExplainsMeansShared(rd, named.value);
        ConfirmedIff(history, persistence, named.value);
        return Some(Localized(named.value, streak >= persistence, streak)), rd;
      }
      v := Some(if t.value.exact + t.value.partial != {} then Ambiguous else Inconclusive);
    }
  }

  /** The sole exact candidate, when no class is partly explained or short of evidence. */
  method Decide(rd: Round, ghost done: seq<Key>, t: Tally) returns (named: Option<Endpoint>)
    requires rd.Valid() && rd.slow != [] && SlowClasses(rd, done) && Tallied(rd, done, t)
    ensures Names(rd, named)
  {
    if |t.exact| == 1 && t.partial == {} && !t.insufficient {
      var e := TheMember(t.exact);
      SoleExactExplains(rd, done, t, e);
      return Some(e);
    }
    forall e
      ensures !rd.Explains(e)
    {
      if rd.Explains(e) {
        ExplainsIsSoleExact(rd, done, t, e);
      }
    }
    named := None;
  }
}
