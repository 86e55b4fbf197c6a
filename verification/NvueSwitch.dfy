/**
 Deleting a VLAN through NVUE: the membership index inverted from the per-interface configuration,
 the changeset the deletions are staged in, and the apply-and-poll that makes it the configuration.
 */
module NvueSwitch {
  import opened Common
  import opened Sorting
  import opened Text

  const BRIDGE_DOMAIN := "br_default"
  const APPLY_TIMEOUT: real := 60.0
  const APPLY_INTERVAL: real := 1.0

  /** A JSON value, as far as the driver looks: an object, or anything else. */
  datatype Json = Object(fields: map<string, Json>) | Other

  /** The two parts of the configuration a VLAN appears in. */
  datatype Config = Config(interfaces: map<string, Json>, domainVlans: map<string, Json>)

  // ---------------------------------------------------------------------------------------------
  // Reading and deleting at a path

  /** The value at a path of keys; Other where there is none. */
  function At(j: Json, path: seq<string>): Json
    decreases path
  {
    if path == [] then j
    else if j.Object? && path[0] in j.fields then At(j.fields[path[0]], path[1..])
    else Other
  }

  /** DELETE of a path: the key goes from the object that holds it; a path leading nowhere deletes nothing. */
  function DeleteAt(j: Json, path: seq<string>): Json
    decreases path
  {
    if path == [] || !j.Object? || path[0] !in j.fields then j
    else if |path| == 1 then Object(j.fields - {path[0]})
    else Object(j.fields[path[0] := DeleteAt(j.fields[path[0]], path[1..])])
  }

  const VLAN_PATH := ["bridge", "domain", BRIDGE_DOMAIN, "vlan"]

  /** _interface_vlan_ids: the keys of bridge.domain.br_default.vlan, when every level is an object. */
  function VlanIds(body: Json): set<string> {
    var vlan := At(body, VLAN_PATH);
    if vlan.Object? then vlan.fields.Keys else {}
  }

  lemma {:induction false} DeletedAt(j: Json, path: seq<string>, key: string)
    ensures At(DeleteAt(j, path + [key]), path) ==
            (if At(j, path).Object? then Object(At(j, path).fields - {key}) else At(j, path))
    decreases path
  {
    if path == [] {
      if j.Object? && key !in j.fields {
        assert j.fields - {key} == j.fields;
      }
    } else if j.Object? && path[0] in j.fields {
      assert (path + [key])[1..] == path[1..] + [key];
      DeletedAt(j.fields[path[0]], path[1..], key);
    }
  }

  lemma PrefixTail(a: seq<string>, b: seq<string>)
    requires a != [] && b != [] && a[0] == b[0]
    ensures a <= b <==> a[1..] <= b[1..]
  {
  }

  /** A deletion changes no value off its path. */
  lemma {:induction false} DeletedElsewhere(j: Json, path: seq<string>, other: seq<string>)
    requires !(path <= other) && !(other <= path)
    ensures At(DeleteAt(j, path), other) == At(j, other)
    decreases path
  {
    if !j.Object? || path[0] !in j.fields || path[0] != other[0] {
    } else {
      PrefixTail(path, other);
      PrefixTail(other, path);
      DeletedElsewhere(j.fields[path[0]], path[1..], other[1..]);
    }
  }

  lemma {:induction false} DeletedNothing(j: Json, path: seq<string>, key: string)
    requires !At(j, path).Object? || key !in At(j, path).fields
    ensures DeleteAt(j, path + [key]) == j
    decreases path
  {
    if path == [] || !j.Object? || path[0] !in j.fields {
    } else {
      assert (path + [key])[1..] == path[1..] + [key];
      DeletedNothing(j.fields[path[0]], path[1..], key);
      assert j.fields[path[0] := j.fields[path[0]]] == j.fields;
    }
  }

  function WithoutInterfaceVlan(body: Json, vlan: string): Json {
    DeleteAt(body, VLAN_PATH + [vlan])
  }

  /** What a DELETE request names: a VLAN on an interface, or in the bridge domain. */
  datatype Resource = InterfaceVlan(port: string, vlan: string) | DomainVlan(vlan: string)

  function Deleted(c: Config, resource: Resource): Config {
    match resource
    case InterfaceVlan(port, vlan) =>
      if port in c.interfaces then
        c.(interfaces := c.interfaces[port := WithoutInterfaceVlan(c.interfaces[port], vlan)])
      else c
    case DomainVlan(vlan) => c.(domainVlans := c.domainVlans - {vlan})
  }

  /** The configuration with every reference to the VLAN gone. */
  function WithoutVlan(c: Config, vlan: string): Config {
    Config(map id | id in c.interfaces :: WithoutInterfaceVlan(c.interfaces[id], vlan), c.domainVlans - {vlan})
  }

  /**
   What delete_vlan promises of that configuration: no interface and no domain entry refers to the
   VLAN, every other membership and every value off the deleted paths is unchanged.
   */
  lemma WithoutVlanSpec(c: Config, vlan: string)
    ensures var d := WithoutVlan(c, vlan);
            && d.interfaces.Keys == c.interfaces.Keys && vlan !in d.domainVlans
            && (forall w :: w != vlan ==> (w in d.domainVlans <==> w in c.domainVlans))
            && (forall w :: w in d.domainVlans ==> d.domainVlans[w] == c.domainVlans[w])
            && (forall id :: id in c.interfaces ==> VlanIds(d.interfaces[id]) == VlanIds(c.interfaces[id]) - {vlan})
            && (forall id, path ::
                  var deleted := ["bridge", "domain", "br_default", "vlan", vlan];
                  id in c.interfaces && !(path <= deleted) && !(deleted <= path) ==>
                  At(d.interfaces[id], path) == At(c.interfaces[id], path))
  {
    forall id | id in c.interfaces
      ensures VlanIds(WithoutInterfaceVlan(c.interfaces[id], vlan)) == VlanIds(c.interfaces[id]) - {vlan}
    {
      DeletedAt(c.interfaces[id], VLAN_PATH, vlan);
    }
    forall id, path | id in c.interfaces && !(path <= VLAN_PATH + [vlan]) && !(VLAN_PATH + [vlan] <= path)
      ensures At(WithoutInterfaceVlan(c.interfaces[id], vlan), path) == At(c.interfaces[id], path)
    {
      DeletedElsewhere(c.interfaces[id], VLAN_PATH + [vlan], path);
    }
  }

  // ---------------------------------------------------------------------------------------------
  // The membership index

  /** The interfaces that carry the VLAN. */
  function MembersOf(interfaces: map<string, Json>, vlan: string): set<string> {
    set id | id in interfaces && vlan in VlanIds(interfaces[id])
  }

  /** These are the interfaces that carry the VLAN, in order and each once. */
  ghost predicate ListsMembers(members: seq<string>, interfaces: map<string, Json>, vlan: string) {
    && SortedBy(StrLeq, members) && Distinct(members)
    && (forall id :: id in members <==> id in interfaces && RefersTo(interfaces[id], vlan))
  }

  /** The interface's bridge.domain.br_default.vlan is an object with this key. */
  predicate RefersTo(body: Json, vlan: string) {
    var vlans := At(body, ["bridge", "domain", "br_default", "vlan"]);
    vlans.Object? && vlan in vlans.fields
  }

  lemma MembersRefer(interfaces: map<string, Json>, vlan: string)
    ensures forall id :: id in MembersOf(interfaces, vlan) <==> id in interfaces && RefersTo(interfaces[id], vlan)
  {
  }

  /** Each VLAN's members in order, each once, and no other VLAN: the exact inverse of VlanIds. */
  ghost predicate Inverts(membership: map<string, seq<string>>, interfaces: map<string, Json>) {
    && (forall vlan :: vlan in membership <==> MembersOf(interfaces, vlan) != {})
    && (forall vlan :: vlan in membership ==> ListsMembers(membership[vlan], interfaces, vlan))
  }

  lemma StrOrder()
    ensures TotalPreorder(StrLeq)
  {
    forall x, y ensures StrLeq(x, y) || StrLeq(y, x) { StrLeqTotal(x, y); }
    forall x, y, z | StrLeq(x, y) && StrLeq(y, z) ensures StrLeq(x, z) { StrLeqTransitive(x, y, z); }
  }

  /** membership.setdefault(vid, []).append(interface_id) */
  function Appended(membership: map<string, seq<string>>, vlan: string, id: string): map<string, seq<string>> {
    membership[vlan := (if vlan in membership then membership[vlan] else []) + [id]]
  }

  /** The index built so far, from the VLANs of the interfaces already read. */
  ghost predicate Collected(membership: map<string, seq<string>>, vlansOf: map<string, set<string>>,
                            read: set<string>)
  {
    forall vlan ::
      && (vlan in membership <==> exists id :: Carries(vlansOf, read, id, vlan))
      && (vlan in membership ==>
            Distinct(membership[vlan]) && forall id :: id in membership[vlan] <==> Carries(vlansOf, read, id, vlan))
  }

  ghost predicate Carries(vlansOf: map<string, set<string>>, read: set<string>, id: string, vlan: string) {
    id in read && id in vlansOf && vlan in vlansOf[id]
  }

  /** The index with the interface added under each of these VLANs. */
  ghost function WithInterface(membership: map<string, seq<string>>, id: string, vlans: set<string>)
    : map<string, seq<string>>
  {
    map v | v in membership.Keys + vlans ::
      if v in vlans then (if v in membership then membership[v] else []) + [id] else membership[v]
  }

  lemma NoneAdded(membership: map<string, seq<string>>, id: string)
    ensures WithInterface(membership, id, {}) == membership
  {
  }

  lemma AppendOne(membership: map<string, seq<string>>, id: string, done: set<string>, vlan: string)
    requires vlan !in done
    ensures Appended(WithInterface(membership, id, done), vlan, id) == WithInterface(membership, id, done + {vlan})
  {
  }

  /** Add one interface to the entry of each of its VLANs. */
  method CollectInterface(membership: map<string, seq<string>>, id: string, vlans: set<string>)
    returns (after: map<string, seq<string>>)
    ensures after == WithInterface(membership, id, vlans)
  {
    after := membership;
    NoneAdded(membership, id);
    var done := {};
    while done != vlans
      invariant done <= vlans
      invariant after == WithInterface(membership, id, done)
      decreases vlans - done
    {
      var vlan := PickNext(vlans, done);
      AppendOne(membership, id, done, vlan);
      after := Appended(after, vlan, id);
      done := done + {vlan};
    }
  }

  method PickNext(all: set<string>, done: set<string>) returns (next: string)
    requires !(all <= done)
    ensures next in all && next !in done
  {
    next :| next in all && next !in done;
  }

  lemma CollectedOneMore(membership: map<string, seq<string>>, vlansOf: map<string, set<string>>, read: set<string>,
                         id: string)
    requires Collected(membership, vlansOf, read) && id in vlansOf && id !in read
    ensures Collected(WithInterface(membership, id, vlansOf[id]), vlansOf, read + {id})
  {
    var after := WithInterface(membership, id, vlansOf[id]);
    forall v
      ensures v in after <==> exists i :: Carries(vlansOf, read + {id}, i, v)
      ensures v in after ==> Distinct(after[v]) && forall i :: i in after[v] <==> Carries(vlansOf, read + {id}, i, v)
    {
      assert forall i :: Carries(vlansOf, read + {id}, i, v) <==>
                         Carries(vlansOf, read, i, v) || (i == id && v in vlansOf[id]);
      assert v in vlansOf[id] ==> Carries(vlansOf, read + {id}, id, v);
      if v in membership {
        var j :| Carries(vlansOf, read, j, v);
        assert Carries(vlansOf, read + {id}, j, v);
        assert !Carries(vlansOf, read, id, v) && id !in membership[v];
      }
    }
  }

  lemma CollectedMembers(collected: map<string, seq<string>>, vlansOf: map<string, set<string>>,
                         interfaces: map<string, Json>, vlan: string)
    requires vlansOf == map id | id in interfaces :: VlanIds(interfaces[id])
    requires Collected(collected, vlansOf, interfaces.Keys)
    ensures vlan in collected <==> MembersOf(interfaces, vlan) != {}
    ensures vlan in collected ==> ListsMembers(Sort(StrLeq, collected[vlan]), interfaces, vlan)
  {
    assert forall id :: Carries(vlansOf, interfaces.Keys, id, vlan) <==> id in MembersOf(interfaces, vlan);
    if vlan in collected {
      StrOrder();
      SortSpec(StrLeq, collected[vlan]);
    }
  }

  /** _vlan_membership_by_id over the applied interfaces; the order JSON lists them in does not matter. */
  method MembershipById(interfaces: map<string, Json>) returns (membership: map<string, seq<string>>)
    ensures Inverts(membership, interfaces)
  {
    var vlansOf := map id | id in interfaces :: VlanIds(interfaces[id]);
    var collected: map<string, seq<string>> := map[];
    var read := {};
    while read != interfaces.Keys
      invariant read <= interfaces.Keys
      invariant Collected(collected, vlansOf, read)
      decreases interfaces.Keys - read
    {
      var id := PickNext(interfaces.Keys, read);
      CollectedOneMore(collected, vlansOf, read, id);
      collected := CollectInterface(collected, id, vlansOf[id]);
      read := read + {id};
    }
    membership := map vlan | vlan in collected :: Sort(StrLeq, collected[vlan]);
    forall vlan
      ensures vlan in membership <==> MembersOf(interfaces, vlan) != {}
      ensures vlan in membership ==> ListsMembers(membership[vlan], interfaces, vlan)
    {
      CollectedMembers(collected, vlansOf, interfaces, vlan);
    }
  }

  /** The index at one VLAN, empty where it holds none. */
  method VlanMembers(interfaces: map<string, Json>, vlan: string) returns (members: seq<string>)
    ensures ListsMembers(members, interfaces, vlan)
  {
    var membership := MembershipById(interfaces);
    MembersRefer(interfaces, vlan);
    members := if vlan in membership then membership[vlan] else [];
  }

  // ---------------------------------------------------------------------------------------------
  // The switch end. Assumed of it: a changeset is a copy, applied as a whole or not at all, and nobody
  // else writes the configuration. Every request may fail, and a failed one may still have had effect.

  datatype RevisionState = Open | Applying | Applied | Rejected

  datatype Revision = Revision(config: Config, state: RevisionState)

  datatype Request = ReadInterfaces | Create | Remove(resource: Resource) | StartApply

  /** What the driver asked of the switch, and what it was answered. */
  datatype Sent = Sent(request: Request, ok: bool) | Polled(answer: Option<RevisionState>)

  class NvueServer {
    var applied: Config
    var revisions: seq<Revision>
    var now: real
    var log: seq<Sent>

    constructor (config: Config)
      ensures applied == config && revisions == [] && log == []
    {
      applied, revisions, now, log := config, [], 0.0, [];
    }

    /** GET of the applied interfaces, which may fail. */
    method GetInterfaces() returns (interfaces: Option<map<string, Json>>)
      modifies this`log
      ensures interfaces.Some? ==> interfaces.value == applied.interfaces
      ensures log == old(log) + [Sent(ReadInterfaces, interfaces.Some?)]
    {
      var ok: bool := *;
      interfaces := if ok then Some(applied.interfaces) else None;
      log := log + [Sent(ReadInterfaces, interfaces.Some?)];
    }

    /** POST /revision: a copy of the applied configuration; the answer may still be an error. */
    method CreateRevision() returns (id: Option<nat>)
      modifies this`revisions, this`log
      ensures log == old(log) + [Sent(Create, id.Some?)]
      ensures id.Some? ==> id.value == |old(revisions)| && revisions == old(revisions) + [Revision(applied, Open)]
      ensures id.None? ==> revisions == old(revisions) || revisions == old(revisions) + [Revision(applied, Open)]
    {
      var created: bool, ok: bool := *, *;
      if created {
        revisions := revisions + [Revision(applied, Open)];
      }
      id := if created && ok then Some(|revisions| - 1) else None;
      log := log + [Sent(Create, id.Some?)];
    }

    /** DELETE in a changeset; a failed request leaves the changeset in any state, but open. */
    method Delete(id: nat, resource: Resource) returns (ok: bool)
      requires id < |revisions| && revisions[id].state == Open
      modifies this`revisions, this`log
      ensures log == old(log) + [Sent(Remove(resource), ok)]
      ensures |revisions| == |old(revisions)| && revisions[id].state == Open
      ensures forall r :: 0 <= r < |revisions| && r != id ==> revisions[r] == old(revisions)[r]
      ensures ok ==> revisions[id].config == Deleted(old(revisions)[id].config, resource)
    {
      ok := *;
      var garbled: Config := *;
      revisions := revisions[id := Revision(if ok then Deleted(revisions[id].config, resource) else garbled, Open)];
      log := log + [Sent(Remove(resource), ok)];
    }

    /** PATCH state=apply; a failed request may have been accepted all the same. */
    method RequestApply(id: nat) returns (ok: bool)
      requires id < |revisions| && revisions[id].state == Open
      modifies this`revisions, this`log
      ensures log == old(log) + [Sent(StartApply, ok)]
      ensures ok ==> revisions == old(revisions)[id := Revision(old(revisions)[id].config, Applying)]
      ensures !ok ==> revisions == old(revisions) ||
                      revisions == old(revisions)[id := Revision(old(revisions)[id].config, Applying)]
    {
      var accepted: bool := *;
      ok := *;
      if ok || accepted {
        revisions := revisions[id := revisions[id].(state := Applying)];
      }
      log := log + [Sent(StartApply, ok)];
    }

    /** GET of the changeset: the switch may have applied or rejected it meanwhile, and the answer may lag or fail. */
    method PollRevision(id: nat) returns (state: Option<RevisionState>)
      requires id < |revisions| && revisions[id].state != Open
      modifies this`revisions, this`applied, this`log
      ensures log == old(log) + [Polled(state)]
      ensures |revisions| == |old(revisions)| && revisions[id].config == old(revisions)[id].config
      ensures revisions[id].state != Open
      ensures old(revisions)[id].state == Applying && revisions[id].state == Applied ==> applied == revisions[id].config
      ensures !(old(revisions)[id].state == Applying && revisions[id].state == Applied) ==> applied == old(applied)
      ensures old(revisions)[id].state != Applying ==> revisions[id].state == old(revisions)[id].state
      ensures state == Some(Applied) ==> revisions[id].state == Applied
    {
      var settles: bool, accepts: bool, answers: bool := *, *, *;
      if settles && revisions[id].state == Applying {
        if accepts {
          applied := revisions[id].config;
        }
        revisions := revisions[id := revisions[id].(state := if accepts then Applied else Rejected)];
      }
      state := if answers then Some(revisions[id].state) else None;
      log := log + [Polled(state)];
    }

    /** Sleeping moves the clock on by at least the time asked for. */
    method Sleep(seconds: real)
      requires seconds >= 0.0
      modifies this`now
      ensures now >= old(now) + seconds
    {
      now := now + seconds;
    }
  }

  // ---------------------------------------------------------------------------------------------
  // What the driver sends

  /** These requests, each answered. */
  function Answered(plan: seq<Request>): seq<Sent> {
    seq(|plan|, i requires 0 <= i < |plan| => Sent(plan[i], true))
  }

  /** The plan's requests in order, up to the first that fails; that one is what raises. */
  ghost predicate Sends(sent: seq<Sent>, plan: seq<Request>, raised: bool) {
    if raised then
      0 < |sent| <= |plan| && sent == Answered(plan[..|sent| - 1]) + [Sent(plan[|sent| - 1], false)]
    else sent == Answered(plan)
  }

  lemma NextSent(sent: seq<Sent>, plan: seq<Request>, k: nat, ok: bool)
    requires k < |plan| && sent == Answered(plan[..k])
    ensures ok ==> sent + [Sent(plan[k], ok)] == Answered(plan[..k + 1])
    ensures !ok ==> Sends(sent + [Sent(plan[k], ok)], plan, true)
  {
  }

  /** A plan in two parts, of which the second began after the first. */
  lemma SendsInTwo(first: seq<Sent>, one: seq<Request>, second: seq<Sent>, two: seq<Request>, raised: bool)
    requires first == Answered(one) && Sends(second, two, raised)
    ensures Sends(first + second, one + two, raised)
  {
    assert Answered(one) + Answered(two) == Answered(one + two);
    if raised {
      var k := |second| - 1;
      assert (one + two)[..|one| + k] == one + two[..k];
      assert Answered(one) + Answered(two[..k]) == Answered(one + two[..k]);
    }
  }

  /** After a failure nothing of the rest is sent. */
  lemma FailsEarlier(sent: seq<Sent>, plan: seq<Request>, more: seq<Request>)
    requires Sends(sent, plan, true)
    ensures Sends(sent, plan + more, true)
  {
    assert (plan + more)[..|sent| - 1] == plan[..|sent| - 1];
  }

  /** After an apply request that is answered, polls until one reports an outcome or fails, or a minute is over. */
  ghost predicate AppliesAndPolls(sent: seq<Sent>, raised: bool, seconds: real) {
    && sent != [] && sent[0].Sent? && sent[0].request == StartApply
    && if !sent[0].ok then raised && |sent| == 1
       else
         && 2 <= |sent| <= 62
         && (forall i :: 1 <= i < |sent| ==> sent[i].Polled?)
         && (forall i :: 1 <= i < |sent| - 1 ==> Undecided(sent[i]))
         && (raised <==> Last(sent) != Polled(Some(Applied)))
         && (Undecided(Last(sent)) ==> seconds >= 60.0)
  }

  predicate Undecided(s: Sent) {
    s.Polled? && s.answer.Some? && s.answer.value != Applied && s.answer.value != Rejected
  }

  function Removals(members: seq<string>, vlan: string): seq<Request> {
    seq(|members|, i requires 0 <= i < |members| => Remove(InterfaceVlan(members[i], vlan)))
  }

  /** What delete_vlan sends before it asks for the changeset to be applied. */
  function StagingPlan(members: seq<string>, vlan: string): seq<Request> {
    [ReadInterfaces, Create] + Removals(members, vlan) + [Remove(DomainVlan(vlan))]
  }

  /** delete_vlan's requests: it raises exactly when one of them fails, or the apply does. */
  ghost predicate Requested(sent: seq<Sent>, members: seq<string>, vlan: string, raised: bool, seconds: real) {
    || (raised && Sends(sent, StagingPlan(members, vlan), true))
    || (exists staged, rest :: sent == staged + rest && Sends(staged, StagingPlan(members, vlan), false)
                               && AppliesAndPolls(rest, raised, seconds))
  }

  lemma ThenApplied(staged: seq<Sent>, rest: seq<Sent>, members: seq<string>, vlan: string, raised: bool, seconds: real)
    requires Sends(staged, StagingPlan(members, vlan), false) && AppliesAndPolls(rest, raised, seconds)
    ensures Requested(staged + rest, members, vlan, raised, seconds)
  {
  }

  lemma ReadFails(vlan: string)
    ensures Sends([Sent(ReadInterfaces, false)], StagingPlan([], vlan), true)
  {
  }

  lemma CreateFails(members: seq<string>, vlan: string)
    ensures Sends([Sent(ReadInterfaces, true)] + [Sent(Create, false)], StagingPlan(members, vlan), true)
  {
    assert StagingPlan(members, vlan)[..1] == [ReadInterfaces];
  }

  lemma MembersSent(removed: seq<Sent>, members: seq<string>, vlan: string, raised: bool)
    requires Sends(removed, Removals(members, vlan), raised)
    ensures var sent := [Sent(ReadInterfaces, true)] + [Sent(Create, true)] + removed;
            if raised then Sends(sent, StagingPlan(members, vlan), true)
            else sent == Answered(StagingPlan(members, vlan)[..2 + |members|])
  {
    var plan, removals := StagingPlan(members, vlan), Removals(members, vlan);
    var first := [Sent(ReadInterfaces, true)] + [Sent(Create, true)];
    SendsInTwo(first, [ReadInterfaces, Create], removed, removals, raised);
    assert [ReadInterfaces, Create] + removals == plan[..2 + |members|];
    if raised {
      FailsEarlier(first + removed, plan[..2 + |members|], [Remove(DomainVlan(vlan))]);
    }
  }

  lemma DomainSent(sent: seq<Sent>, members: seq<string>, vlan: string, ok: bool)
    requires sent == Answered(StagingPlan(members, vlan)[..2 + |members|])
    ensures Sends(sent + [Sent(Remove(DomainVlan(vlan)), ok)], StagingPlan(members, vlan), !ok)
  {
    var plan := StagingPlan(members, vlan);
    NextSent(sent, plan, 2 + |members|, ok);
    assert plan[..|plan|] == plan;
  }

  // ---------------------------------------------------------------------------------------------
  // The driver

  class NvidiaCumulusSwitch {
    const server: NvueServer
    var configCache: Option<map<string, Json>>
    var appliedCache: Option<map<string, Json>>

    constructor (server: NvueServer)
      ensures this.server == server && configCache.None? && appliedCache.None?
    {
      this.server, configCache, appliedCache := server, None, None;
    }

    method Refresh()
      modifies this
      ensures configCache.None? && appliedCache.None?
    {
      configCache, appliedCache := None, None;
    }

    /** The applied interfaces, from the cache if it holds any. */
    method InterfacesApplied() returns (interfaces: Option<map<string, Json>>)
      modifies this`appliedCache, server`log
      ensures old(appliedCache).Some? ==> interfaces == old(appliedCache) && server.log == old(server.log)
      ensures old(appliedCache).None? ==> server.log == old(server.log) + [Sent(ReadInterfaces, interfaces.Some?)]
      ensures old(appliedCache).None? && interfaces.Some? ==> interfaces.value == server.applied.interfaces
      ensures appliedCache == interfaces
    {
      if appliedCache.None? {
        appliedCache := server.GetInterfaces();
      }
      interfaces := appliedCache;
    }

    /** _apply_revision: request the apply, then poll until the switch reports an outcome or time is up. */
    method ApplyRevision(id: nat) returns (raised: bool, ghost requested: bool, ghost sent: seq<Sent>)
      requires id < |server.revisions| && server.revisions[id].state == Open
      modifies server
      ensures requested ||
              (raised && server.applied == old(server.applied) && server.revisions == old(server.revisions))
      ensures server.applied == old(server.applied) || server.applied == old(server.revisions)[id].config
      ensures !raised ==> server.applied == old(server.revisions)[id].config
      ensures server.log == old(server.log) + sent && server.now >= old(server.now)
      ensures AppliesAndPolls(sent, raised, server.now - old(server.now))
    {
      var ok := server.RequestApply(id);
      sent := [Sent(StartApply, ok)];
      requested := server.revisions[id].state != Open;
      if !ok {
        raised := true;
        return;
      }
      var deadline := server.now + APPLY_TIMEOUT;
      ghost var polls := 0;
      while true
        invariant server.now >= old(server.now) + polls as real * APPLY_INTERVAL && polls <= 60
        invariant server.log == old(server.log) + sent && |sent| == 1 + polls && sent[0] == Sent(StartApply, true)
        invariant forall i :: 1 <= i < |sent| ==> Undecided(sent[i])
        invariant id < |server.revisions| && server.revisions[id].state != Open && requested
        invariant server.revisions[id].config == old(server.revisions)[id].config
        invariant server.revisions[id].state == Applied ==> server.applied == server.revisions[id].config
        invariant server.revisions[id].state != Applied ==> server.applied == old(server.applied)
        decreases deadline - server.now
      {
        var state := server.PollRevision(id);
        ConcatAssociative(old(server.log), sent, [Polled(state)]);
        sent := sent + [Polled(state)];
        if state.None? {
          raised := true;
          return;
        }
        if state.value == Applied {
          raised := false;
          return;
        }
        if state.value == Rejected || server.now >= deadline {
          raised := true;
          return;
        }
        server.Sleep(APPLY_INTERVAL);
        polls := polls + 1;
      }
    }

    /** Stage the removal of the VLAN from each of its members, one request each. */
    method StageMembers(id: nat, members: seq<string>, vlan: string) returns (raised: bool, ghost sent: seq<Sent>)
      requires id < |server.revisions| && server.revisions[id].state == Open
      requires Distinct(members)
      modifies server`revisions, server`log
      ensures |server.revisions| == |old(server.revisions)| && server.revisions[id].state == Open
      ensures server.log == old(server.log) + sent && Sends(sent, Removals(members, vlan), raised)
      ensures !raised ==> server.revisions[id].config ==
                          WithoutMembers(old(server.revisions)[id].config, multiset(members), vlan)
    {
      ghost var start := server.revisions[id].config;
      ghost var plan := Removals(members, vlan);
      sent := [];
      for k := 0 to |members|
        invariant |server.revisions| == |old(server.revisions)| && server.revisions[id].state == Open
        invariant server.revisions[id].config == WithoutMembers(start, multiset(members[..k]), vlan)
        invariant server.log == old(server.log) + sent && sent == Answered(plan[..k])
      {
        OneMemberLess(start, members, k, vlan);
        var ok := server.Delete(id, InterfaceVlan(members[k], vlan));
        NextSent(sent, plan, k, ok);
        ConcatAssociative(old(server.log), sent, [Sent(plan[k], ok)]);
        sent := sent + [Sent(plan[k], ok)];
        if !ok {
          raised := true;
          return;
        }
      }
      assert members[..|members|] == members && plan[..|members|] == plan;
      raised := false;
    }

    /** delete_vlan up to the apply: a changeset with the VLAN gone everywhere, or none when a request fails. */
    method StageDeletion(vlan: string) returns (id: Option<nat>, ghost members: seq<string>, ghost sent: seq<Sent>)
      requires appliedCache.None?
      modifies this`appliedCache, server`revisions, server`log
      ensures server.log == old(server.log) + sent && Sends(sent, StagingPlan(members, vlan), id.None?)
      ensures sent[0] == Sent(ReadInterfaces, true) ==> ListsMembers(members, server.applied.interfaces, vlan)
      ensures id.Some? ==> id.value < |server.revisions|
                           && server.revisions[id.value] == Revision(WithoutVlan(server.applied, vlan), Open)
    {
      id, members := None, [];
      var interfaces := InterfacesApplied();
      sent := [Sent(ReadInterfaces, interfaces.Some?)];
      if interfaces.None? {
        ReadFails(vlan);
        return;
      }
      var ports := VlanMembers(interfaces.value, vlan);
      members := ports;
      var revision := server.CreateRevision();
      ConcatAssociative(old(server.log), sent, [Sent(Create, revision.Some?)]);
      sent := sent + [Sent(Create, revision.Some?)];
      if revision.None? {
        CreateFails(members, vlan);
        return;
      }
      ghost var removed;
      var failed;
      failed, removed := StageMembers(revision.value, ports, vlan);
      ConcatAssociative(old(server.log), sent, removed);
      MembersSent(removed, members, vlan, failed);
      sent := sent + removed;
      if failed {
        return;
      }
      var ok := server.Delete(revision.value, DomainVlan(vlan));
      ConcatAssociative(old(server.log), sent, [Sent(Remove(DomainVlan(vlan)), ok)]);
      DomainSent(sent, members, vlan, ok);
      sent := sent + [Sent(Remove(DomainVlan(vlan)), ok)];
      OthersHaveNone(server.applied.interfaces, vlan, members);
      MembersAreAll(server.applied, vlan, members);
      id := if ok then revision else None;
    }

    /**
     delete_vlan. When it returns, the applied configuration is the old one without the VLAN and
     nothing else changed; when it raises, the applied configuration is the old one or that one,
     and it is the old one whenever no apply request reached the switch. It raises exactly when a
     request fails, or the apply is rejected or not done within a minute.
     */
    method DeleteVlan(vlan: string)
        returns (raised: bool, ghost requested: bool, ghost members: seq<string>, ghost sent: seq<Sent>)
      modifies this, server
      ensures server.log == old(server.log) + sent && sent != [] && server.now >= old(server.now)
      ensures sent[0] == Sent(ReadInterfaces, true) ==> ListsMembers(members, old(server.applied).interfaces, vlan)
      ensures Requested(sent, members, vlan, raised, server.now - old(server.now))
      ensures !raised ==> server.applied == WithoutVlan(old(server.applied), vlan)
      ensures !raised ==> configCache.None? && appliedCache.None?
      ensures raised ==> server.applied in {old(server.applied), WithoutVlan(old(server.applied), vlan)}
      ensures !requested ==> raised && server.applied == old(server.applied)
      ensures requested ==> Sent(StartApply, true) in sent || Sent(StartApply, false) in sent
    {
      Refresh();
      var id;
      id, members, sent := StageDeletion(vlan);
      if id.None? {
        raised, requested := true, false;
        return;
      }
      ghost var rest;
      raised, requested, rest := ApplyRevision(id.value);
      ConcatAssociative(old(server.log), sent, rest);
      ThenApplied(sent, rest, members, vlan, raised, server.now - old(server.now));
      sent := sent + rest;
      if !raised {
        Refresh();
      }
    }
  }

  /** The configuration with the VLAN gone from these interfaces only. */
  ghost function WithoutMembers(c: Config, members: multiset<string>, vlan: string): Config {
    c.(interfaces := map id | id in c.interfaces ::
         if id in members then WithoutInterfaceVlan(c.interfaces[id], vlan) else c.interfaces[id])
  }

  lemma OneMemberLess(c: Config, members: seq<string>, k: nat, vlan: string)
    requires Distinct(members) && k < |members|
    ensures Deleted(WithoutMembers(c, multiset(members[..k]), vlan), InterfaceVlan(members[k], vlan)) ==
            WithoutMembers(c, multiset(members[..k + 1]), vlan)
  {
    assert members[k] !in members[..k];
    assert members[..k + 1] == members[..k] + [members[k]];
    assert Deleted(WithoutMembers(c, multiset(members[..k]), vlan), InterfaceVlan(members[k], vlan)).interfaces ==
           WithoutMembers(c, multiset(members[..k + 1]), vlan).interfaces;
  }

  lemma OthersHaveNone(interfaces: map<string, Json>, vlan: string, members: seq<string>)
    requires ListsMembers(members, interfaces, vlan)
    ensures forall id :: id in interfaces && id !in members ==>
              WithoutInterfaceVlan(interfaces[id], vlan) == interfaces[id]
  {
    MembersRefer(interfaces, vlan);
    forall id | id in interfaces && id !in members
      ensures WithoutInterfaceVlan(interfaces[id], vlan) == interfaces[id]
    {
      DeletedNothing(interfaces[id], VLAN_PATH, vlan);
    }
  }

  /** Deleting the VLAN from its members deletes it from every interface. */
  lemma MembersAreAll(c: Config, vlan: string, members: seq<string>)
    requires forall id :: id in c.interfaces && id !in members ==>
               WithoutInterfaceVlan(c.interfaces[id], vlan) == c.interfaces[id]
    ensures var d := WithoutMembers(c, multiset(members), vlan);
            d.(domainVlans := d.domainVlans - {vlan}) == WithoutVlan(c, vlan)
  {
    assert WithoutMembers(c, multiset(members), vlan).interfaces == WithoutVlan(c, vlan).interfaces;
  }
}
