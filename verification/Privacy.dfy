/** Object privacy: grants, who may see a targeted object, and which of its targets they are shown. */
module Privacy {
  import opened Wrappers
  import opened Ordering
  import opened Sequences

  type Target = string

  // ------------------------------------------------------------------------
  // Sorted, duplicate-free lists
  // ------------------------------------------------------------------------

  predicate Before(a: Target, b: Target) {
    LexLeq(a, b) && a != b
  }

  predicate StrictlySorted(s: seq<Target>) {
    forall i, j :: 0 <= i < j < |s| ==> Before(s[i], s[j])
  }

  /** `Vec::dedup`: drops each element equal to the one before it. */
  function Dedup(s: seq<Target>): seq<Target> {
    if |s| < 2 then s
    else if s[|s| - 2] == s[|s| - 1] then Dedup(s[..|s| - 1])
    else Dedup(s[..|s| - 1]) + [s[|s| - 1]]
  }

  function SortedUnique(s: seq<Target>): seq<Target> {
    Dedup(Sort(s, LexLeq))
  }

  lemma LexIsPreorder()
    ensures TotalPreorder<Target>(LexLeq)
  {
    forall x: Target, y: Target ensures LexLeq(x, y) || LexLeq(y, x) {
      LexTotal(x, y);
    }
    forall x: Target, y: Target, z: Target | LexLeq(x, y) && LexLeq(y, z) ensures LexLeq(x, z) {
      LexTransitive(x, y, z);
    }
  }

  lemma {:induction false} DedupSorts(s: seq<Target>)
    requires SortedBy(s, LexLeq)
    ensures StrictlySorted(Dedup(s))
    ensures forall t :: t in Dedup(s) <==> t in s
    ensures s != [] ==> Dedup(s) != [] && Dedup(s)[|Dedup(s)| - 1] == s[|s| - 1]
  {
    if |s| >= 2 {
      var init, last := s[..|s| - 1], s[|s| - 1];
      assert s == init + [last];
      DedupSorts(init);
      var d := Dedup(init);
      if s[|s| - 2] != last {
        forall i | 0 <= i < |d| ensures Before(d[i], last) {
          assert d[i] in d;
          var k :| 0 <= k < |init| && init[k] == d[i];
          assert LexLeq(s[k], last);
          if d[i] == last {
            assert k == |s| - 2 || LexLeq(s[k], s[|s| - 2]);
            LexAntisymmetric(s[|s| - 2], last);
          }
        }
      }
    }
  }

  lemma SortedUniqueMeaning(s: seq<Target>)
    ensures StrictlySorted(SortedUnique(s))
    ensures forall t :: t in SortedUnique(s) <==> t in s
  {
    LexIsPreorder();
    SortSorts(s, LexLeq);
    DedupSorts(Sort(s, LexLeq));
    forall t ensures t in Sort(s, LexLeq) <==> t in s {
      assert t in multiset(Sort(s, LexLeq)) <==> t in multiset(s);
    }
  }

  /** A strictly sorted list is determined by what is in it. */
  lemma {:induction false} SameMembersSameList(a: seq<Target>, b: seq<Target>)
    requires StrictlySorted(a) && StrictlySorted(b)
    requires forall t :: t in a <==> t in b
    ensures a == b
  {
    assert b != [] ==> b[0] in b;
    if a != [] {
      assert a[|a| - 1] in b;
      var x, y := a[|a| - 1], b[|b| - 1];
      assert y in a;
      if x != y {
        assert Before(y, x) && Before(x, y);
        LexAntisymmetric(x, y);
      }
      var initA, initB := a[..|a| - 1], b[..|b| - 1];
      forall t ensures t in initA <==> t in initB {
        assert t in initA ==> t in a && t != x;
        assert t in initB ==> t in b && t != y;
        assert a == initA + [x] && b == initB + [y];
      }
      SameMembersSameList(initA, initB);
      assert a == initA + [x] && b == initB + [y];
    }
  }

  // ------------------------------------------------------------------------
  // Grants
  // ------------------------------------------------------------------------

  /** The targets a client has been granted, sorted and without duplicates. */
  type Grant = s: seq<Target> | StrictlySorted(s)

  /** `binary_search(..).is_ok()` between two positions. */
  predicate Found(s: seq<Target>, t: Target, lo: nat, hi: nat)
    requires lo <= hi <= |s|
    decreases hi - lo
  {
    lo < hi &&
    (var mid := lo + (hi - lo) / 2;
     s[mid] == t || (if LexLeq(s[mid], t) then Found(s, t, mid + 1, hi) else Found(s, t, lo, mid)))
  }

  lemma {:induction false} SearchFinds(s: seq<Target>, t: Target, lo: nat, hi: nat)
    requires StrictlySorted(s) && lo <= hi <= |s|
    ensures Found(s, t, lo, hi) <==> exists i :: lo <= i < hi && s[i] == t
    decreases hi - lo
  {
    if lo < hi {
      var mid := lo + (hi - lo) / 2;
      if LexLeq(s[mid], t) {
        SearchFinds(s, t, mid + 1, hi);
        forall i | lo <= i < mid && s[mid] != t ensures s[i] != t {
          if s[i] == t {
            assert Before(s[i], s[mid]);
            LexAntisymmetric(s[i], s[mid]);
          }
        }
      } else {
        SearchFinds(s, t, lo, mid);
        forall i | mid < i < hi ensures s[i] != t {
          assert Before(s[mid], s[i]);
        }
      }
    }
  }

  predicate Contains(g: Grant, t: Target) {
    Found(g, t, 0, |g|)
  }

  lemma ContainsIff(g: Grant, t: Target)
    ensures Contains(g, t) <==> t in g
  {
    SearchFinds(g, t, 0, |g|);
  }

  function Extended(g: Grant, more: seq<Target>): (r: Grant)
    ensures forall t :: t in r <==> t in g || t in more
  {
    SortedUniqueMeaning(g + more);
    SortedUnique(g + more)
  }

  function FromTargets(targets: seq<Target>): (r: Grant)
    ensures forall t :: t in r <==> t in targets
  {
    Extended([], targets)
  }

  /** Targets may arrive in any portions, and in any order. */
  lemma ExtendedIsFromAll(a: seq<Target>, b: seq<Target>)
    ensures Extended(FromTargets(a), b) == FromTargets(a + b)
    ensures FromTargets(a + b) == FromTargets(b + a)
  {
    SameMembersSameList(Extended(FromTargets(a), b), FromTargets(a + b));
    SameMembersSameList(FromTargets(a + b), FromTargets(b + a));
  }

  /** Builds grants for many clients at once. */
  class GrantIndex {
    var byClient: map<string, Grant>

    constructor ()
      ensures byClient == map[]
    {
      byClient := map[];
    }

    function Get(client: string): Grant
      reads this
    {
      if client in byClient then byClient[client] else []
    }

    method Add(client: string, targets: seq<Target>)
      modifies this
      ensures Get(client) == Extended(old(Get(client)), targets)
      ensures forall c :: c != client ==> Get(c) == old(Get(c))
      ensures byClient.Keys == old(byClient).Keys + {client}
    {
      if client in byClient {
        byClient := byClient[client := Extended(byClient[client], targets)];
      } else {
        byClient := byClient[client := FromTargets(targets)];
      }
    }
  }

  // ------------------------------------------------------------------------
  // Where grants come from
  // ------------------------------------------------------------------------

  datatype VenObject = VenObject(id: string, clientId: string, targets: seq<Target>)
  datatype ResourceObject = ResourceObject(venId: string, targets: seq<Target>)

  function TargetsOfResource(venId: string): ResourceObject -> seq<Target> {
    (r: ResourceObject) => if r.venId == venId then r.targets else []
  }

  /** What one `ven` object and its resources bring to a client. */
  function TargetsOfVen(resources: seq<ResourceObject>, client: string): VenObject -> seq<Target> {
    (v: VenObject) => if v.clientId == client then v.targets + Flat(resources, TargetsOfResource(v.id)) else []
  }

  function TargetsOf(vens: seq<VenObject>, resources: seq<ResourceObject>, client: string): seq<Target> {
    Flat(vens, TargetsOfVen(resources, client))
  }

  /** The target is on a `ven` object of the client, or on a resource of one. */
  ghost predicate Granted(vens: seq<VenObject>, resources: seq<ResourceObject>, client: string, t: Target) {
    exists v :: v in vens && v.clientId == client
      && (t in v.targets || exists r :: r in resources && r.venId == v.id && t in r.targets)
  }

  lemma GrantedIff(vens: seq<VenObject>, resources: seq<ResourceObject>, client: string, t: Target)
    ensures t in FromTargets(TargetsOf(vens, resources, client)) <==> Granted(vens, resources, client, t)
  {
    var f := TargetsOfVen(resources, client);
    if t in Flat(vens, f) {
      var v := FlatMember(vens, f, t);
      if t !in v.targets {
        var r := FlatMember(resources, TargetsOfResource(v.id), t);
      }
    }
    if Granted(vens, resources, client, t) {
      var v :| v in vens && v.clientId == client
        && (t in v.targets || exists r :: r in resources && r.venId == v.id && t in r.targets);
      if t !in v.targets {
        var r :| r in resources && r.venId == v.id && t in r.targets;
        FlatContains(resources, TargetsOfResource(v.id), r, t);
      }
      FlatContains(vens, f, v, t);
    }
  }

  /** The grant holds just the targets listed. */
  ghost predicate Holds(g: Grant, targets: seq<Target>) {
    forall t :: t in g <==> t in targets
  }

  method ExtendFromResources(grant: Grant, venId: string, resources: seq<ResourceObject>, ghost seen: seq<Target>)
    returns (extended: Grant)
    requires Holds(grant, seen)
    ensures Holds(extended, seen + Flat(resources, TargetsOfResource(venId)))
  {
    extended := grant;
    ghost var f := TargetsOfResource(venId);
    for i := 0 to |resources|
      invariant Holds(extended, seen + Flat(resources[..i], f))
    {
      FlatNext(seen, resources, f, i);
      if resources[i].venId == venId {
        extended := Extended(extended, resources[i].targets);
      }
    }
    assert resources[..|resources|] == resources;
  }

  /** A client's grant, as it is read when the client asks. */
  method GrantFor(vens: seq<VenObject>, resources: seq<ResourceObject>, client: string) returns (grant: Grant)
    ensures grant == FromTargets(TargetsOf(vens, resources, client))
    ensures forall t :: t in grant <==> Granted(vens, resources, client, t)
  {
    grant := [];
    ghost var f := TargetsOfVen(resources, client);
    for i := 0 to |vens|
      invariant Holds(grant, Flat(vens[..i], f))
    {
      FlatLast(vens, f, i);
      var v := vens[i];
      if v.clientId == client {
        grant := Extended(grant, v.targets);
        grant := ExtendFromResources(grant, v.id, resources, Flat(vens[..i], f) + v.targets);
      }
    }
    assert vens[..|vens|] == vens;
    HoldsIsFrom(grant, TargetsOf(vens, resources, client));
    forall t ensures t in grant <==> Granted(vens, resources, client, t) {
      GrantedIff(vens, resources, client, t);
    }
  }

  method IndexVen(index: GrantIndex, v: VenObject, resources: seq<ResourceObject>, ghost seen: seq<Target>)
    requires Holds(index.Get(v.clientId), seen)
    modifies index
    ensures Holds(index.Get(v.clientId), seen + TargetsOfVen(resources, v.clientId)(v))
    ensures forall c :: c != v.clientId ==> index.Get(c) == old(index.Get(c))
  {
    index.Add(v.clientId, v.targets);
    ghost var f := TargetsOfResource(v.id);
    for i := 0 to |resources|
      invariant Holds(index.Get(v.clientId), (seen + v.targets) + Flat(resources[..i], f))
      invariant forall c :: c != v.clientId ==> index.Get(c) == old(index.Get(c))
    {
      FlatNext(seen + v.targets, resources, f, i);
      if resources[i].venId == v.id {
        index.Add(v.clientId, resources[i].targets);
      }
    }
    assert resources[..|resources|] == resources;
  }

  /** The index holds every client's targets, as far as these `ven` objects bring them. */
  ghost predicate Indexes(index: GrantIndex, vens: seq<VenObject>, resources: seq<ResourceObject>)
    reads index
  {
    forall c :: Holds(index.Get(c), TargetsOf(vens, resources, c))
  }

  method IndexAll(vens: seq<VenObject>, resources: seq<ResourceObject>) returns (index: GrantIndex)
    ensures fresh(index) && Indexes(index, vens, resources)
  {
    index := new GrantIndex();
    for i := 0 to |vens|
      invariant fresh(index) && Indexes(index, vens[..i], resources)
    {
      label Before:
      var v := vens[i];
      IndexVen(index, v, resources, TargetsOf(vens[..i], resources, v.clientId));
      forall c ensures Holds(index.Get(c), TargetsOf(vens[..i + 1], resources, c)) {
        FlatLast(vens, TargetsOfVen(resources, c), i);
        if c != v.clientId {
          assert index.Get(c) == old@Before(index.Get(c));
        }
      }
    }
    assert vens[..|vens|] == vens;
  }

  lemma HoldsIsFrom(g: Grant, targets: seq<Target>)
    requires Holds(g, targets)
    ensures g == FromTargets(targets)
  {
    SameMembersSameList(g, FromTargets(targets));
  }

  datatype VenGrant = VenGrant(venId: string, clientId: string, grant: Grant)

  /** The entry is this VEN's, with its client's grant. */
  ghost predicate IsFor(entry: VenGrant, v: VenObject, vens: seq<VenObject>, resources: seq<ResourceObject>) {
    entry.venId == v.id && entry.clientId == v.clientId && Holds(entry.grant, TargetsOf(vens, resources, v.clientId))
  }

  method Indexed(index: GrantIndex, v: VenObject, ghost vens: seq<VenObject>, ghost resources: seq<ResourceObject>)
    returns (entry: VenGrant)
    requires Indexes(index, vens, resources)
    ensures IsFor(entry, v, vens, resources)
  {
    entry := VenGrant(v.id, v.clientId, index.Get(v.clientId));
  }

  /** Every VEN's grant, as push delivery reads it. */
  method AllGrants(vens: seq<VenObject>, resources: seq<ResourceObject>) returns (r: seq<VenGrant>)
    ensures |r| == |vens|
    ensures forall i :: 0 <= i < |r| ==> IsFor(r[i], vens[i], vens, resources)
  {
    var index := IndexAll(vens, resources);
    r := [];
    for i := 0 to |vens|
      invariant |r| == i
      invariant Indexes(index, vens, resources)
      invariant forall j :: 0 <= j < i ==> IsFor(r[j], vens[j], vens, resources)
    {
      var entry := Indexed(index, vens[i], vens, resources);
      r := r + [entry];
    }
  }

  /** Push delivery uses the very grant its client would be read with. */
  lemma OneGrantPerClient(entry: VenGrant, v: VenObject, vens: seq<VenObject>, resources: seq<ResourceObject>,
      asked: Grant)
    requires IsFor(entry, v, vens, resources)
    requires forall t :: t in asked <==> Granted(vens, resources, v.clientId, t)
    ensures entry.grant == asked
  {
    forall t ensures t in asked <==> t in entry.grant {
      GrantedIff(vens, resources, v.clientId, t);
    }
    SameMembersSameList(entry.grant, asked);
  }

  // ------------------------------------------------------------------------
  // Who asks, and for what
  // ------------------------------------------------------------------------

  datatype Role = BusinessLogic | VenClient(clientId: string, grant: Grant) | Anonymous {
    function Granted(): Grant {
      if VenClient? then grant else []
    }
  }

  datatype Empty = HidesTargeted | MeansEverythingGranted

  datatype Access = Access(role: Role, requested: seq<Target>, empty: Empty)

  /** A collection read: targets must be named. */
  function List(role: Role, requested: seq<Target>): Access {
    Access(role, requested, HidesTargeted)
  }

  function ById(role: Role): Access {
    Access(role, [], MeansEverythingGranted)
  }

  function PushTo(role: Role, subscribed: seq<Target>): Access {
    Access(role, subscribed, MeansEverythingGranted)
  }

  datatype TargetFilter =
    | Any
    | Untargeted
    | UntargetedOrAnyOf(allowed: seq<Target>)
    | AnyOf(allowed: seq<Target>)
  {
    predicate Admits(carried: seq<Target>) {
      match this
      case Any => true
      case Untargeted => carried == []
      case UntargetedOrAnyOf(allowed) => carried == [] || exists t :: t in carried && t in allowed
      case AnyOf(allowed) => exists t :: t in carried && t in allowed
    }
  }

  /** The targets of a list that pass a test, in order. */
  function Filter(targets: seq<Target>, keep: Target -> bool): (r: seq<Target>)
    ensures forall t :: t in r <==> t in targets && keep(t)
  {
    if targets == [] then []
    else
      var init, last := Filter(targets[..|targets| - 1], keep), targets[|targets| - 1];
      assert targets == targets[..|targets| - 1] + [last];
      if keep(last) then init + [last] else init
  }

  function Narrowed(requested: seq<Target>, grant: Grant): (r: seq<Target>)
    ensures forall t :: t in r <==> t in requested && t in grant
  {
    var r := Filter(requested, t => Contains(grant, t));
    assert forall t :: t in r <==> t in requested && t in grant by {
      forall t ensures Contains(grant, t) <==> t in grant {
        ContainsIff(grant, t);
      }
    }
    r
  }

  function FilterFor(a: Access): TargetFilter {
    if a.requested != [] then
      AnyOf(if a.role.BusinessLogic? then a.requested else Narrowed(a.requested, a.role.Granted()))
    else if a.role.BusinessLogic? then Any
    else if a.empty.HidesTargeted? then Untargeted
    else UntargetedOrAnyOf(a.role.Granted())
  }

  /** The request narrowed to the grant, or the grant when nothing was requested. */
  function EffectiveTargets(a: Access): seq<Target> {
    if a.requested == [] then a.role.Granted() else Narrowed(a.requested, a.role.Granted())
  }

  /** The targets shown on a visible object; `None` when it is not visible. */
  function VisibleTargets(a: Access, carried: seq<Target>): Option<seq<Target>> {
    if !FilterFor(a).Admits(carried) then None
    else if a.role.BusinessLogic? then Some(carried)
    else if carried == [] then Some([])
    else Some(SortedUnique(Filter(EffectiveTargets(a), t => t in carried)))
  }

  // ------------------------------------------------------------------------
  // What is shown, and what that tells
  // ------------------------------------------------------------------------

  /** A target the reader was granted and, when it named any, asked for. */
  predicate Entitled(a: Access, t: Target) {
    t in a.role.Granted() && (a.requested == [] || t in a.requested)
  }

  /** A reader other than business logic sees just the object's targets it is entitled to. */
  lemma ShownIsIntersection(a: Access, carried: seq<Target>)
    requires !a.role.BusinessLogic? && VisibleTargets(a, carried).Some?
    ensures var shown := VisibleTargets(a, carried).value;
      && StrictlySorted(shown)
      && (forall t :: t in shown <==> t in carried && Entitled(a, t))
      && (shown == [] <==> carried == [])
  {
    if carried != [] {
      var kept := Filter(EffectiveTargets(a), t => t in carried);
      SortedUniqueMeaning(kept);
    }
  }

  /** Whether an object is seen at all. */
  lemma VisibleIff(a: Access, carried: seq<Target>)
    requires !a.role.BusinessLogic?
    ensures VisibleTargets(a, carried).Some? <==>
      if carried == [] then a.requested == []
      else (a.requested != [] || a.empty.MeansEverythingGranted?) && exists t :: t in carried && Entitled(a, t)
  {
    if carried == [] && a.requested == [] {
      assert FilterFor(a).Admits(carried);
    } else if exists t :: t in carried && Entitled(a, t) {
      var t :| t in carried && Entitled(a, t);
      assert t in Narrowed(a.requested, a.role.Granted()) || a.requested == [];
    }
  }

  /** Objects the reader cannot tell apart. */
  ghost predicate LooksTheSame(a: Access, x: seq<Target>, y: seq<Target>) {
    if a.requested != [] then forall t :: Entitled(a, t) ==> (t in x <==> t in y)
    else
      && (x == [] <==> y == [])
      && (a.empty.MeansEverythingGranted? ==> forall t :: t in a.role.Granted() ==> (t in x <==> t in y))
  }

  lemma SameViewShows(a: Access, x: seq<Target>, y: seq<Target>)
    requires !a.role.BusinessLogic? && LooksTheSame(a, x, y)
    requires VisibleTargets(a, x).Some? && VisibleTargets(a, y).Some?
    ensures VisibleTargets(a, x) == VisibleTargets(a, y)
  {
    ShownIsIntersection(a, x);
    ShownIsIntersection(a, y);
    VisibleIff(a, x);
    VisibleIff(a, y);
    SameMembersSameList(VisibleTargets(a, x).value, VisibleTargets(a, y).value);
  }

  /** What a reader is shown tells just the targets it is entitled to, and whether there are any at all. */
  lemma ShownTellsExactly(a: Access, x: seq<Target>, y: seq<Target>)
    requires !a.role.BusinessLogic?
    ensures VisibleTargets(a, x) == VisibleTargets(a, y) <==> LooksTheSame(a, x, y)
  {
    VisibleIff(a, x);
    VisibleIff(a, y);
    if LooksTheSame(a, x, y) && VisibleTargets(a, x).Some? && VisibleTargets(a, y).Some? {
      SameViewShows(a, x, y);
    }
    if VisibleTargets(a, x) == VisibleTargets(a, y) && VisibleTargets(a, x).Some? {
      ShownIsIntersection(a, x);
      ShownIsIntersection(a, y);
    }
  }

  /** Non-interference: targets that were not granted leave no trace but that the object is targeted. */
  lemma UngrantedTargetsDoNotInterfere(a: Access, x: seq<Target>, y: seq<Target>)
    requires !a.role.BusinessLogic?
    requires x == [] <==> y == []
    requires forall t :: t in a.role.Granted() ==> (t in x <==> t in y)
    ensures VisibleTargets(a, x) == VisibleTargets(a, y)
  {
    ShownTellsExactly(a, x, y);
  }

  /**
   The three ways to ask agree: what a list or a push shows, a read by id shows too; and a push that
   names targets shows what a list naming them shows.
   */
  lemma ReadByIdShowsMost(role: Role, requested: seq<Target>, carried: seq<Target>)
    requires !role.BusinessLogic?
    ensures forall a :: a == List(role, requested) || a == PushTo(role, requested) ==>
      VisibleTargets(a, carried).Some? ==>
        && VisibleTargets(ById(role), carried).Some?
        && forall t :: t in VisibleTargets(a, carried).value ==> t in VisibleTargets(ById(role), carried).value
    ensures requested != [] ==>
      VisibleTargets(PushTo(role, requested), carried) == VisibleTargets(List(role, requested), carried)
  {
    VisibleIff(ById(role), carried);
    forall a | (a == List(role, requested) || a == PushTo(role, requested)) && VisibleTargets(a, carried).Some?
      ensures VisibleTargets(ById(role), carried).Some?
      ensures forall t :: t in VisibleTargets(a, carried).value ==> t in VisibleTargets(ById(role), carried).value
    {
      VisibleIff(a, carried);
      ShownIsIntersection(a, carried);
      if t :| t in carried && Entitled(a, t) {
        assert Entitled(ById(role), t);
      }
      ShownIsIntersection(ById(role), carried);
    }
  }

  // ------------------------------------------------------------------------
  // Reader by reader
  // ------------------------------------------------------------------------

  /** The two lists have a target in common. */
  ghost predicate Meet(a: seq<Target>, b: seq<Target>) {
    exists t :: t in a && t in b
  }

  /** Business logic sees objects whole: all of them, or those that carry a target it names. */
  lemma BusinessLogicSeesWhole(a: Access, carried: seq<Target>)
    requires a.role.BusinessLogic?
    ensures a.requested == [] || Meet(carried, a.requested) ==> VisibleTargets(a, carried) == Some(carried)
    ensures a.requested != [] && !Meet(carried, a.requested) ==> VisibleTargets(a, carried) == None
  {
    if Meet(carried, a.requested) {
      var t :| t in carried && t in a.requested;
    }
  }

  lemma UnaskedIff(a: Access, carried: seq<Target>)
    requires a.requested == [] && !a.role.BusinessLogic?
    ensures VisibleTargets(a, carried).Some? <==>
      carried == [] || (a.empty.MeansEverythingGranted? && Meet(carried, a.role.Granted()))
  {
    VisibleIff(a, carried);
    if Meet(carried, a.role.Granted()) {
      var t :| t in carried && t in a.role.Granted();
      assert Entitled(a, t);
    }
  }

  /**
   Asked without naming targets, a list shows a VEN client only what carries none. A read by id and a push
   show it that, and what carries any target it was granted; a reader without an identity, that alone.
   Business logic is shown everything.
   */
  lemma ShownUnasked(client: string, grant: Grant, carried: seq<Target>)
    ensures var ven := VenClient(client, grant);
      && (VisibleTargets(List(ven, []), carried).Some? <==> carried == [])
      && (VisibleTargets(ById(ven), carried).Some? <==> carried == [] || Meet(carried, grant))
      && (VisibleTargets(PushTo(ven, []), carried).Some? <==> carried == [] || Meet(carried, grant))
    ensures
      && (VisibleTargets(List(Anonymous, []), carried).Some? <==> carried == [])
      && (VisibleTargets(ById(Anonymous), carried).Some? <==> carried == [])
      && (VisibleTargets(PushTo(Anonymous, []), carried).Some? <==> carried == [])
    ensures VisibleTargets(List(BusinessLogic, []), carried) == VisibleTargets(ById(BusinessLogic), carried)
      == VisibleTargets(PushTo(BusinessLogic, []), carried) == Some(carried)
  {
    var ven := VenClient(client, grant);
    UnaskedIff(List(ven, []), carried);
    UnaskedIff(ById(ven), carried);
    UnaskedIff(PushTo(ven, []), carried);
    UnaskedIff(List(Anonymous, []), carried);
    UnaskedIff(ById(Anonymous), carried);
    UnaskedIff(PushTo(Anonymous, []), carried);
    BusinessLogicSeesWhole(List(BusinessLogic, []), carried);
    BusinessLogicSeesWhole(ById(BusinessLogic), carried);
    BusinessLogicSeesWhole(PushTo(BusinessLogic, []), carried);
  }

  lemma AskedIff(a: Access, carried: seq<Target>)
    requires a.requested != [] && !a.role.BusinessLogic?
    ensures VisibleTargets(a, carried).Some? <==>
      exists t :: t in carried && t in a.requested && t in a.role.Granted()
  {
    VisibleIff(a, carried);
    if t :| t in carried && t in a.requested && t in a.role.Granted() {
      assert Entitled(a, t);
    }
  }

  /** Naming targets narrows every reader to them: a client to those of them it was granted. */
  lemma ShownWhenAsked(client: string, grant: Grant, requested: seq<Target>, carried: seq<Target>)
    requires requested != []
    ensures var ven := VenClient(client, grant);
      var shown := exists t :: t in carried && t in requested && t in grant;
      && (VisibleTargets(List(ven, requested), carried).Some? <==> shown)
      && (VisibleTargets(PushTo(ven, requested), carried).Some? <==> shown)
    ensures VisibleTargets(List(Anonymous, requested), carried) == None
    ensures VisibleTargets(PushTo(Anonymous, requested), carried) == None
  {
    AskedIff(List(VenClient(client, grant), requested), carried);
    AskedIff(PushTo(VenClient(client, grant), requested), carried);
    AskedIff(List(Anonymous, requested), carried);
    AskedIff(PushTo(Anonymous, requested), carried);
  }
}
