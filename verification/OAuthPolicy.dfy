/**
 * The OAuth policy compiler: for one profile it resolves what each application may hold at
 * most, offers the groups that reachable commands need, and accepts recommendations and
 * defaults only within the offer. What it returns is described without its loops, and the
 * description leaves one outcome: a sound profile, or the first thing wrong with the input.
 */
module OAuthPolicy {
  import opened Options

  datatype Family = Communications | Documents | YouTube

  datatype Application = GmailApp | WorkspaceApp | YoutubeApp

  datatype Effect = Read | Write

  datatype Disposition = Deny | Ask | Allow

  datatype Group = Group(groupId: string, family: Family, serviceId: string, effect: Effect, operationIds: seq<string>)

  datatype Requirement = Requirement(serviceId: string, effects: seq<Effect>)

  datatype FlagKind = Choice(choices: seq<string>) | Switch | Integer(minimum: int, maximum: int) | Text

  datatype Flag = Flag(name: string, aliases: seq<string>, kind: FlagKind)

  datatype Operation = Operation(
    operationId: string, family: Family, requirements: seq<Requirement>, paths: seq<seq<string>>, flags: seq<Flag>)

  datatype ServiceDefault = ServiceDefault(serviceId: string, read: Option<Disposition>, write: Option<Disposition>)
  {
    function Of(e: Effect): Option<Disposition> { if e.Read? then read else write }
  }

  datatype Collection = Collection(version: string, selections: map<Family, seq<string>>, defaults: map<Family, seq<ServiceDefault>>)

  datatype Catalog = Catalog(
    groups: seq<Group>,
    operations: seq<Operation>,
    ceilingPresets: map<string, map<Family, seq<string>>>,
    collections: map<string, Collection>)

  datatype Ceiling = ExplicitCeiling(groupIds: seq<string>) | PresetCeiling(presetId: string)

  datatype Recommendation = ExplicitRecommendation(groupIds: seq<string>) | CollectionRecommendation(collectionId: string, version: string)

  datatype Defaults = ExplicitDefaults(services: seq<ServiceDefault>) | CollectionDefaults(collectionId: string, version: string)

  datatype Authored = Authored(
    application: Application,
    ceiling: Ceiling,
    recommendation: Option<Recommendation>,
    defaults: Option<Defaults>)

  // Which catalog family each application is bound to.
  type Bindings = map<Application, Family>

  datatype Reason =
    | ForeignCeiling | NoCeiling | ExceedsCeiling
    | ForeignRecommendation | RecommendationExceedsOffer
    | UnknownDefaults | UnsupportedService | DefaultsExceedOffer

  datatype Result<T> = Ok(value: T) | Failed(reason: Reason)

  // ---------- The catalog ----------

  // A Map from group ID to group: of groups with one ID, the last counts.
  function GroupById(groups: seq<Group>, id: string): (r: Option<Group>)
    ensures r.Some? ==> r.value in groups && r.value.groupId == id
  {
    if groups == [] then None
    else if groups[|groups| - 1].groupId == id then Some(groups[|groups| - 1])
    else GroupById(groups[..|groups| - 1], id)
  }

  predicate InFamily(c: Catalog, id: string, family: Family) {
    var g := GroupById(c.groups, id);
    g.Some? && g.value.family == family
  }

  predicate AllInFamily(c: Catalog, ids: seq<string>, family: Family) {
    forall i :: 0 <= i < |ids| ==> InFamily(c, ids[i], family)
  }

  ghost predicate GroupsDistinct(groups: seq<Group>) {
    forall i, j :: 0 <= i < j < |groups| ==> groups[i].groupId != groups[j].groupId
  }

  // A group lists only operations of its own family that ask for its service and effect.
  ghost predicate GroupFits(c: Catalog, g: Group) {
    forall i :: 0 <= i < |g.operationIds| ==> Associated(c, g, g.operationIds[i])
  }

  predicate Associated(c: Catalog, g: Group, operationId: string) {
    var k := OperationIndex(c.operations, operationId);
    k < |c.operations| && c.operations[k].family == g.family && Asks(c.operations[k].requirements, g.serviceId, g.effect)
  }

  function OperationIndex(operations: seq<Operation>, id: string, from: nat := 0): (k: nat)
    requires from <= |operations|
    ensures from <= k <= |operations| && (k < |operations| ==> operations[k].operationId == id)
    decreases |operations| - from
  {
    if from == |operations| || operations[from].operationId == id then from else OperationIndex(operations, id, from + 1)
  }

  predicate Asks(requirements: seq<Requirement>, serviceId: string, effect: Effect) {
    exists i :: 0 <= i < |requirements| && requirements[i].serviceId == serviceId && effect in requirements[i].effects
  }

  /** Accepts a catalog exactly if its group IDs are distinct and every group fits the operations it lists. */
  method ValidateCatalog(c: Catalog) returns (valid: bool)
    ensures valid <==> GroupsDistinct(c.groups) && forall i :: 0 <= i < |c.groups| ==> GroupFits(c, c.groups[i])
  {
    var groupIds: set<string> := {};
    for i := 0 to |c.groups|
      invariant groupIds == set k | 0 <= k < i :: c.groups[k].groupId
      invariant |groupIds| <= i
      invariant |groupIds| == i <==> GroupsDistinct(c.groups[..i])
    {
      DistinctGrows(c.groups, i);
      groupIds := groupIds + {c.groups[i].groupId};
    }
    assert c.groups[..|c.groups|] == c.groups;
    if |groupIds| != |c.groups| {
      return false;
    }
    for i := 0 to |c.groups|
      invariant forall k :: 0 <= k < i ==> GroupFits(c, c.groups[k])
    {
      var g := c.groups[i];
      for j := 0 to |g.operationIds|
        invariant forall k :: 0 <= k < j ==> Associated(c, g, g.operationIds[k])
      {
        if !Associated(c, g, g.operationIds[j]) {
          assert !GroupFits(c, c.groups[i]);
          return false;
        }
      }
    }
    return true;
  }

  lemma DistinctGrows(groups: seq<Group>, i: nat)
    requires i < |groups|
    ensures GroupsDistinct(groups[..i + 1]) <==>
              GroupsDistinct(groups[..i]) && groups[i].groupId !in set k | 0 <= k < i :: groups[k].groupId
  {
    var all := groups[..i + 1];
    if GroupsDistinct(groups[..i]) && groups[i].groupId !in set k | 0 <= k < i :: groups[k].groupId {
      forall a, b | 0 <= a < b < |all| ensures all[a].groupId != all[b].groupId {
        assert b < i ==> groups[..i][a] == all[a] && groups[..i][b] == all[b];
      }
    }
    if GroupsDistinct(all) {
      forall a, b | 0 <= a < b < i ensures groups[..i][a].groupId != groups[..i][b].groupId {
        assert all[a] == groups[a] && all[b] == groups[b];
      }
      forall k | 0 <= k < i ensures groups[k].groupId != groups[i].groupId {
        assert all[k] == groups[k] && all[i] == groups[i];
      }
    }
  }

  // ---------- Families ----------

  const APPLICATIONS: seq<Application> := [GmailApp, WorkspaceApp, YoutubeApp]

  ghost predicate BindsAll(b: Bindings) { forall a: Application :: a in b }

  ghost predicate FamiliesDistinct(b: Bindings)
    requires BindsAll(b)
  {
    forall x: Application, y: Application :: x != y ==> b[x] != b[y]
  }

  /** Accepts bindings exactly if no family is bound twice. */
  method ValidateFamilies(b: Bindings) returns (valid: bool)
    requires BindsAll(b)
    ensures valid <==> FamiliesDistinct(b)
  {
    var families: set<Family> := {};
    valid := true;
    for i := 0 to 3
      invariant families == set k | 0 <= k < i :: b[APPLICATIONS[k]]
      invariant valid <==> forall j, k :: 0 <= j < k < i ==> b[APPLICATIONS[j]] != b[APPLICATIONS[k]]
    {
      if b[APPLICATIONS[i]] in families {
        valid := false;
      }
      families := families + {b[APPLICATIONS[i]]};
    }
    assert valid <==> b[GmailApp] != b[WorkspaceApp] && b[GmailApp] != b[YoutubeApp] && b[WorkspaceApp] != b[YoutubeApp] by {
      assert APPLICATIONS[0] == GmailApp && APPLICATIONS[1] == WorkspaceApp && APPLICATIONS[2] == YoutubeApp;
    }
  }

  // The application bound to a family; of several, the last counts.
  function ApplicationOf(b: Bindings, family: Family): Application
    requires BindsAll(b)
  {
    if b[YoutubeApp] == family then YoutubeApp else if b[WorkspaceApp] == family then WorkspaceApp else GmailApp
  }

  /** With distinct families the two directions agree: every family has its own application. */
  lemma BindingsInvert(b: Bindings, family: Family, a: Application)
    requires BindsAll(b) && FamiliesDistinct(b)
    ensures b[ApplicationOf(b, family)] == family
    ensures b[a] == family ==> a == ApplicationOf(b, family)
  {
    assert b[GmailApp] != b[WorkspaceApp] && b[GmailApp] != b[YoutubeApp] && b[WorkspaceApp] != b[YoutubeApp];
    match a
    case GmailApp =>
    case WorkspaceApp =>
    case YoutubeApp =>
  }

  // ---------- Ceilings ----------

  type Maxima = map<Application, seq<string>>

  function CeilingIds(c: Catalog, ceiling: Ceiling, family: Family): Option<seq<string>> {
    match ceiling
    case ExplicitCeiling(ids) => Some(ids)
    case PresetCeiling(preset) =>
      if preset in c.ceilingPresets && family in c.ceilingPresets[preset] then Some(c.ceilingPresets[preset][family]) else None
  }

  predicate CeilingFits(c: Catalog, b: Bindings, a: Authored)
    requires a.application in b
  {
    var ids := CeilingIds(c, a.ceiling, b[a.application]);
    ids.Some? && AllInFamily(c, ids.value, b[a.application])
  }

  ghost predicate CeilingsFit(c: Catalog, b: Bindings, authored: seq<Authored>)
    requires BindsAll(b)
  {
    forall i :: 0 <= i < |authored| ==> CeilingFits(c, b, authored[i])
  }

  ghost predicate DistinctApplications(authored: seq<Authored>) {
    forall i, j :: 0 <= i < j < |authored| ==> authored[i].application != authored[j].application
  }

  // Each authored application has its own resolved ceiling, and nothing else has one.
  ghost predicate AreMaxima(c: Catalog, b: Bindings, authored: seq<Authored>, maxima: Maxima)
    requires BindsAll(b)
  {
    && (forall a :: a in maxima ==> exists i :: 0 <= i < |authored| && authored[i].application == a)
    && forall i :: 0 <= i < |authored| ==> HasMaximum(c, b, authored[i], maxima)
  }

  ghost predicate HasMaximum(c: Catalog, b: Bindings, a: Authored, maxima: Maxima)
    requires BindsAll(b)
  {
    && CeilingFits(c, b, a) && a.application in maxima
    && Some(maxima[a.application]) == CeilingIds(c, a.ceiling, b[a.application])
  }

  method ResolveCeilings(c: Catalog, b: Bindings, authored: seq<Authored>) returns (r: Result<Maxima>)
    requires BindsAll(b) && DistinctApplications(authored)
    ensures r.Ok? ==> AreMaxima(c, b, authored, r.value)
    ensures r.Failed? ==> r.reason == ForeignCeiling && !CeilingsFit(c, b, authored)
  {
    var maxima: Maxima := map[];
    for i := 0 to |authored|
      invariant forall a :: a in maxima ==> exists k :: 0 <= k < i && authored[k].application == a
      invariant forall k :: 0 <= k < i ==> HasMaximum(c, b, authored[k], maxima)
    {
      var a := authored[i];
      var ids := CeilingIds(c, a.ceiling, b[a.application]);
      if ids.None? || !AllInFamily(c, ids.value, b[a.application]) {
        assert !CeilingFits(c, b, authored[i]);
        return Failed(ForeignCeiling);
      }
      forall k | 0 <= k < i ensures HasMaximum(c, b, authored[k], maxima[a.application := ids.value]) {
        assert HasMaximum(c, b, authored[k], maxima);
      }
      maxima := maxima[a.application := ids.value];
    }
    return Ok(maxima);
  }

  // ---------- The offer ----------

  // A group of the ceiling that lists the operation.
  predicate Compatible(g: Group, ceiling: seq<string>, op: Operation) {
    g.groupId in ceiling && op.operationId in g.operationIds
  }

  ghost predicate Backs(c: Catalog, ceiling: seq<string>, op: Operation, serviceId: string, effect: Effect, g: Group) {
    g in c.groups && Compatible(g, ceiling, op) && g.serviceId == serviceId && g.effect == effect
  }

  ghost predicate EffectBacked(c: Catalog, ceiling: seq<string>, op: Operation, serviceId: string, effect: Effect) {
    exists g :: Backs(c, ceiling, op, serviceId, effect, g)
  }

  // Everything the operation asks for is backed by a ceiling group that lists it.
  ghost predicate RequirementBacked(c: Catalog, ceiling: seq<string>, op: Operation, q: Requirement) {
    forall e :: e in q.effects ==> EffectBacked(c, ceiling, op, q.serviceId, e)
  }

  ghost predicate Covered(c: Catalog, b: Bindings, maxima: Maxima, op: Operation)
    requires BindsAll(b)
  {
    var a := ApplicationOf(b, op.family);
    a in maxima && forall i :: 0 <= i < |op.requirements| ==> RequirementBacked(c, maxima[a], op, op.requirements[i])
  }

  ghost predicate AllCovered(c: Catalog, b: Bindings, maxima: Maxima, ops: seq<Operation>)
    requires BindsAll(b)
  {
    forall i :: 0 <= i < |ops| ==> Covered(c, b, maxima, ops[i])
  }

  // The first operation that is not covered, and what it lacks.
  ghost predicate FirstUncovered(c: Catalog, b: Bindings, maxima: Maxima, ops: seq<Operation>, i: int, reason: Reason)
    requires BindsAll(b)
  {
    && 0 <= i < |ops| && !Covered(c, b, maxima, ops[i])
    && (forall k :: 0 <= k < i ==> Covered(c, b, maxima, ops[k]))
    && reason == if ApplicationOf(b, ops[i].family) in maxima then ExceedsCeiling else NoCeiling
  }

  // The groups that are offered because some reachable operation is compatible with them.
  ghost predicate Offers(c: Catalog, b: Bindings, maxima: Maxima, ops: seq<Operation>, id: string)
    requires BindsAll(b)
  {
    exists i, g :: 0 <= i < |ops| && OffersFor(c, b, maxima, ops[i], g, id)
  }

  ghost predicate OffersFor(c: Catalog, b: Bindings, maxima: Maxima, op: Operation, g: Group, id: string)
    requires BindsAll(b)
  {
    var a := ApplicationOf(b, op.family);
    g in c.groups && a in maxima && Compatible(g, maxima[a], op) && g.groupId == id
  }

  method OfferGroups(c: Catalog, b: Bindings, maxima: Maxima, ops: seq<Operation>) returns (r: Result<set<string>>)
    requires BindsAll(b)
    ensures r.Ok? ==>
              && AllCovered(c, b, maxima, ops)
              && forall id :: id in r.value <==> Offers(c, b, maxima, ops, id)
    ensures r.Failed? ==> exists i :: FirstUncovered(c, b, maxima, ops, i, r.reason)
  {
    var offered: set<string> := {};
    for i := 0 to |ops|
      invariant forall k :: 0 <= k < i ==> Covered(c, b, maxima, ops[k])
      invariant forall id :: id in offered <==> Offers(c, b, maxima, ops[..i], id)
    {
      var a := ApplicationOf(b, ops[i].family);
      if a !in maxima {
        assert FirstUncovered(c, b, maxima, ops, i, NoCeiling);
        return Failed(NoCeiling);
      }
      var backed := RequirementsBacked(c, maxima[a], ops[i]);
      if !backed {
        assert FirstUncovered(c, b, maxima, ops, i, ExceedsCeiling);
        return Failed(ExceedsCeiling);
      }
      var compatible := set g | g in c.groups && Compatible(g, maxima[a], ops[i]) :: g.groupId;
      OfferGrows(c, b, maxima, ops, i, compatible);
      offered := offered + compatible;
    }
    assert ops[..|ops|] == ops;
    return Ok(offered);
  }

  method RequirementsBacked(c: Catalog, ceiling: seq<string>, op: Operation) returns (backed: bool)
    ensures backed <==> forall i :: 0 <= i < |op.requirements| ==> RequirementBacked(c, ceiling, op, op.requirements[i])
  {
    for i := 0 to |op.requirements|
      invariant forall k :: 0 <= k < i ==> RequirementBacked(c, ceiling, op, op.requirements[k])
    {
      var q := op.requirements[i];
      for j := 0 to |q.effects|
        invariant forall k :: 0 <= k < j ==> EffectBacked(c, ceiling, op, q.serviceId, q.effects[k])
      {
        var found := FindBacking(c, ceiling, op, q.serviceId, q.effects[j]);
        if !found {
          assert q.effects[j] in q.effects;
          assert !RequirementBacked(c, ceiling, op, op.requirements[i]);
          return false;
        }
      }
      forall e | e in q.effects ensures EffectBacked(c, ceiling, op, q.serviceId, e) {
        var k :| 0 <= k < |q.effects| && q.effects[k] == e;
      }
      assert RequirementBacked(c, ceiling, op, op.requirements[i]);
    }
    return true;
  }

  method FindBacking(c: Catalog, ceiling: seq<string>, op: Operation, serviceId: string, effect: Effect) returns (found: bool)
    ensures found <==> EffectBacked(c, ceiling, op, serviceId, effect)
  {
    for i := 0 to |c.groups|
      invariant forall k :: 0 <= k < i ==> !Backs(c, ceiling, op, serviceId, effect, c.groups[k])
    {
      var g := c.groups[i];
      if Compatible(g, ceiling, op) && g.serviceId == serviceId && g.effect == effect {
        assert Backs(c, ceiling, op, serviceId, effect, g);
        return true;
      }
    }
    return false;
  }

  lemma OfferGrows(c: Catalog, b: Bindings, maxima: Maxima, ops: seq<Operation>, i: nat, compatible: set<string>)
    requires BindsAll(b) && i < |ops| && ApplicationOf(b, ops[i].family) in maxima
    requires compatible == set g | g in c.groups && Compatible(g, maxima[ApplicationOf(b, ops[i].family)], ops[i]) :: g.groupId
    ensures forall id :: Offers(c, b, maxima, ops[..i + 1], id) <==> Offers(c, b, maxima, ops[..i], id) || id in compatible
  {
    var now, later := ops[..i], ops[..i + 1];
    forall id ensures Offers(c, b, maxima, later, id) <==> Offers(c, b, maxima, now, id) || id in compatible {
      if Offers(c, b, maxima, later, id) {
        var k, g :| 0 <= k < |later| && OffersFor(c, b, maxima, later[k], g, id);
        if k < i {
          assert later[k] == now[k];
        }
      }
      if Offers(c, b, maxima, now, id) {
        var k, g :| 0 <= k < |now| && OffersFor(c, b, maxima, now[k], g, id);
        assert later[k] == now[k];
      }
      if id in compatible {
        var g :| g in c.groups && Compatible(g, maxima[ApplicationOf(b, ops[i].family)], ops[i]) && g.groupId == id;
        assert later[i] == ops[i] && OffersFor(c, b, maxima, later[i], g, id);
      }
    }
  }

  // What is offered through one application.
  function OfferedFor(c: Catalog, b: Bindings, offered: set<string>, a: Application): set<string>
    requires a in b
  {
    set id | id in offered && InFamily(c, id, b[a])
  }

  /** What is offered through an application lies within that application's ceiling, because no two share a family. */
  lemma OfferWithinCeiling(c: Catalog, b: Bindings, authored: seq<Authored>, maxima: Maxima, ops: seq<Operation>,
                           offered: set<string>, a: Application, id: string)
    requires BindsAll(b) && FamiliesDistinct(b) && AreMaxima(c, b, authored, maxima)
    requires forall x :: x in offered <==> Offers(c, b, maxima, ops, x)
    requires id in OfferedFor(c, b, offered, a)
    ensures a in maxima && id in maxima[a]
  {
    var i, g :| 0 <= i < |ops| && OffersFor(c, b, maxima, ops[i], g, id);
    var owner := ApplicationOf(b, ops[i].family);
    var k :| 0 <= k < |authored| && authored[k].application == owner;
    assert HasMaximum(c, b, authored[k], maxima);
    var n :| 0 <= n < |maxima[owner]| && maxima[owner][n] == id;
    assert InFamily(c, maxima[owner][n], b[owner]);
    BindingsInvert(b, b[a], owner);
    BindingsInvert(b, b[a], a);
  }

  // ---------- Recommendations and defaults ----------

  type Offer = map<Application, set<string>>

  function FromCollection<V>(c: Catalog, id: string, version: string, family: Family, byFamily: Collection -> map<Family, V>): Option<V> {
    if id in c.collections && c.collections[id].version == version && family in byFamily(c.collections[id])
    then Some(byFamily(c.collections[id])[family]) else None
  }

  function RecommendedIds(c: Catalog, r: Recommendation, family: Family): Option<seq<string>> {
    match r
    case ExplicitRecommendation(ids) => Some(ids)
    case CollectionRecommendation(id, version) => FromCollection(c, id, version, family, (x: Collection) => x.selections)
  }

  function DefaultServices(c: Catalog, d: Defaults, family: Family): Option<seq<ServiceDefault>> {
    match d
    case ExplicitDefaults(services) => Some(services)
    case CollectionDefaults(id, version) => FromCollection(c, id, version, family, (x: Collection) => x.defaults)
  }

  // Whether a recommendation can be accepted, and if not, why.
  function RecommendationVerdict(c: Catalog, family: Family, offered: set<string>, r: Recommendation): Option<Reason> {
    var ids := RecommendedIds(c, r, family);
    if ids.None? || !AllInFamily(c, ids.value, family) then Some(ForeignRecommendation)
    else if exists i :: 0 <= i < |ids.value| && ids.value[i] !in offered then Some(RecommendationExceedsOffer)
    else None
  }

  predicate Supported(c: Catalog, family: Family, serviceId: string) {
    exists i :: 0 <= i < |c.groups| && c.groups[i].family == family && c.groups[i].serviceId == serviceId
  }

  // A default other than deny is backed by an offered group of the same service and effect.
  predicate DefaultBacked(c: Catalog, family: Family, offered: set<string>, s: ServiceDefault, e: Effect) {
    s.Of(e).None? || s.Of(e) == Some(Deny) || OfferedGroup(c, family, offered, s.serviceId, e)
  }

  predicate OfferedGroup(c: Catalog, family: Family, offered: set<string>, serviceId: string, e: Effect) {
    exists i :: 0 <= i < |c.groups| && c.groups[i].family == family && c.groups[i].serviceId == serviceId
             && c.groups[i].effect == e && c.groups[i].groupId in offered
  }

  function DefaultVerdict(c: Catalog, family: Family, offered: set<string>, s: ServiceDefault): Option<Reason> {
    if !Supported(c, family, s.serviceId) then Some(UnsupportedService)
    else if !DefaultBacked(c, family, offered, s, Read) || !DefaultBacked(c, family, offered, s, Write) then Some(DefaultsExceedOffer)
    else None
  }

  datatype Granted = Granted(recommendations: map<Application, seq<string>>, defaults: map<Application, seq<ServiceDefault>>)

  // What an application's authored recommendation and defaults come to, once accepted.
  ghost predicate GrantedAs(c: Catalog, b: Bindings, offer: Offer, a: Authored, g: Granted)
    requires BindsAll(b) && a.application in offer
  {
    && (a.recommendation.Some? ==>
          && RecommendationVerdict(c, b[a.application], offer[a.application], a.recommendation.value).None?
          && a.application in g.recommendations
          && Some(g.recommendations[a.application]) == RecommendedIds(c, a.recommendation.value, b[a.application]))
    && (a.defaults.Some? ==>
          && a.application in g.defaults
          && Some(g.defaults[a.application]) == DefaultServices(c, a.defaults.value, b[a.application]))
    && (a.recommendation.None? ==> a.application !in g.recommendations)
    && (a.defaults.None? ==> a.application !in g.defaults)
  }

  // What stands against an authored recommendation or the resolution of authored defaults.
  function GrantProblem(c: Catalog, family: Family, offered: set<string>, a: Authored): Option<Reason> {
    var verdict := if a.recommendation.None? then None else RecommendationVerdict(c, family, offered, a.recommendation.value);
    if verdict.Some? then verdict
    else if a.defaults.Some? && DefaultServices(c, a.defaults.value, family).None? then Some(UnknownDefaults)
    else None
  }

  // The first authored application that cannot be granted, and why.
  ghost predicate FirstRefused(c: Catalog, b: Bindings, authored: seq<Authored>, offer: Offer, i: int, reason: Reason)
    requires BindsAll(b) && OffersToAll(authored, offer)
  {
    && 0 <= i < |authored|
    && GrantProblem(c, b[authored[i].application], offer[authored[i].application], authored[i]) == Some(reason)
    && NoneRefused(c, b, authored, offer, i)
  }

  ghost predicate NoneRefused(c: Catalog, b: Bindings, authored: seq<Authored>, offer: Offer, upTo: nat)
    requires BindsAll(b) && OffersToAll(authored, offer) && upTo <= |authored|
  {
    forall k :: 0 <= k < upTo ==>
      GrantProblem(c, b[authored[k].application], offer[authored[k].application], authored[k]).None?
  }

  ghost predicate OffersToAll(authored: seq<Authored>, offer: Offer) {
    forall i :: 0 <= i < |authored| ==> authored[i].application in offer
  }

  ghost predicate OnlyAuthored(authored: seq<Authored>, g: Granted) {
    forall a :: a in g.defaults || a in g.recommendations ==> exists i :: 0 <= i < |authored| && authored[i].application == a
  }

  ghost predicate AllGranted(c: Catalog, b: Bindings, authored: seq<Authored>, offer: Offer, g: Granted)
    requires BindsAll(b) && OffersToAll(authored, offer)
  {
    OnlyAuthored(authored, g) && forall i :: 0 <= i < |authored| ==> GrantedAs(c, b, offer, authored[i], g)
  }

  method Grant(c: Catalog, b: Bindings, authored: seq<Authored>, offer: Offer) returns (r: Result<Granted>)
    requires BindsAll(b) && DistinctApplications(authored) && OffersToAll(authored, offer)
    ensures r.Ok? ==> AllGranted(c, b, authored, offer, r.value) && NoneRefused(c, b, authored, offer, |authored|)
    ensures r.Failed? ==> exists i :: FirstRefused(c, b, authored, offer, i, r.reason)
  {
    var recommendations: map<Application, seq<string>>, defaults: map<Application, seq<ServiceDefault>> := map[], map[];
    for i := 0 to |authored|
      invariant NoneRefused(c, b, authored, offer, i)
      invariant forall k :: 0 <= k < i ==> GrantedAs(c, b, offer, authored[k], Granted(recommendations, defaults))
      invariant forall a :: a in defaults || a in recommendations ==> exists k :: 0 <= k < i && authored[k].application == a
    {
      var a := authored[i];
      var family := b[a.application];
      ghost var before := Granted(recommendations, defaults);
      assert a.application !in recommendations && a.application !in defaults;
      if a.recommendation.Some? {
        var verdict := RecommendationVerdict(c, family, offer[a.application], a.recommendation.value);
        if verdict.Some? {
          assert FirstRefused(c, b, authored, offer, i, verdict.value);
          return Failed(verdict.value);
        }
        recommendations := recommendations[a.application := RecommendedIds(c, a.recommendation.value, family).value];
      }
      if a.defaults.Some? {
        var services := DefaultServices(c, a.defaults.value, family);
        if services.None? {
          assert FirstRefused(c, b, authored, offer, i, UnknownDefaults);
          return Failed(UnknownDefaults);
        }
        defaults := defaults[a.application := services.value];
      }
      forall k | 0 <= k < i ensures GrantedAs(c, b, offer, authored[k], Granted(recommendations, defaults)) {
        assert GrantedAs(c, b, offer, authored[k], before);
      }
    }
    return Ok(Granted(recommendations, defaults));
  }

  // The first of an application's defaults that cannot stand.
  function FirstVerdict(c: Catalog, family: Family, offered: set<string>, services: seq<ServiceDefault>): Option<Reason> {
    if services == [] then None
    else if DefaultVerdict(c, family, offered, services[0]).Some? then DefaultVerdict(c, family, offered, services[0])
    else FirstVerdict(c, family, offered, services[1..])
  }

  lemma FirstVerdictIs(c: Catalog, family: Family, offered: set<string>, services: seq<ServiceDefault>, k: nat)
    requires k <= |services| && forall j :: 0 <= j < k ==> DefaultVerdict(c, family, offered, services[j]).None?
    ensures FirstVerdict(c, family, offered, services) == FirstVerdict(c, family, offered, services[k..])
  {
    if k > 0 {
      FirstVerdictIs(c, family, offered, services[1..], k - 1);
      assert services[1..][k - 1..] == services[k..];
    } else {
      assert services[0..] == services;
    }
  }

  lemma NoVerdict(c: Catalog, family: Family, offered: set<string>, services: seq<ServiceDefault>)
    ensures FirstVerdict(c, family, offered, services).None? <==> ServicesHold(c, family, offered, services)
  {
    if services != [] {
      NoVerdict(c, family, offered, services[1..]);
      assert forall k :: 1 <= k < |services| ==> services[k] == services[1..][k - 1];
    }
  }

  ghost predicate ServicesHold(c: Catalog, family: Family, offered: set<string>, services: seq<ServiceDefault>) {
    forall k :: 0 <= k < |services| ==> DefaultVerdict(c, family, offered, services[k]).None?
  }

  // What stands against the authored defaults, once they are resolved.
  function DefaultProblem(c: Catalog, family: Family, offered: set<string>, a: Authored): Option<Reason> {
    var services := if a.defaults.None? then None else DefaultServices(c, a.defaults.value, family);
    if services.None? then None else FirstVerdict(c, family, offered, services.value)
  }

  ghost predicate NoneUnbacked(c: Catalog, b: Bindings, authored: seq<Authored>, offer: Offer, upTo: nat)
    requires BindsAll(b) && OffersToAll(authored, offer) && upTo <= |authored|
  {
    forall k :: 0 <= k < upTo ==>
      DefaultProblem(c, b[authored[k].application], offer[authored[k].application], authored[k]).None?
  }

  // The first authored application with a default that cannot stand, and why the first of them cannot.
  ghost predicate FirstUnbacked(c: Catalog, b: Bindings, authored: seq<Authored>, offer: Offer, i: int, reason: Reason)
    requires BindsAll(b) && OffersToAll(authored, offer)
  {
    && 0 <= i < |authored|
    && DefaultProblem(c, b[authored[i].application], offer[authored[i].application], authored[i]) == Some(reason)
    && NoneUnbacked(c, b, authored, offer, i)
  }

  method CheckDefaults(c: Catalog, b: Bindings, authored: seq<Authored>, offer: Offer, g: Granted) returns (problem: Option<Reason>)
    requires BindsAll(b) && OffersToAll(authored, offer) && AllGranted(c, b, authored, offer, g)
    ensures problem.None? ==> NoneUnbacked(c, b, authored, offer, |authored|)
    ensures problem.Some? ==> exists i :: FirstUnbacked(c, b, authored, offer, i, problem.value)
  {
    for i := 0 to |authored|
      invariant NoneUnbacked(c, b, authored, offer, i)
    {
      var a := authored[i].application;
      assert GrantedAs(c, b, offer, authored[i], g);
      if a in g.defaults {
        problem := CheckServices(c, b[a], offer[a], g.defaults[a]);
        if problem.Some? {
          assert FirstUnbacked(c, b, authored, offer, i, problem.value);
          return problem;
        }
      }
    }
    return None;
  }

  method CheckServices(c: Catalog, family: Family, offered: set<string>, services: seq<ServiceDefault>) returns (problem: Option<Reason>)
    ensures problem == FirstVerdict(c, family, offered, services)
  {
    for k := 0 to |services|
      invariant forall j :: 0 <= j < k ==> DefaultVerdict(c, family, offered, services[j]).None?
    {
      FirstVerdictIs(c, family, offered, services, k);
      problem := DefaultVerdict(c, family, offered, services[k]);
      if problem.Some? {
        return problem;
      }
    }
    FirstVerdictIs(c, family, offered, services, |services|);
    return None;
  }

  // ---------- The profile ----------

  datatype Profile = Profile(maxima: Maxima, offer: Offer, granted: Granted, operationIds: set<string>)

  // The offer through each application: what reachable operations are compatible with, in its family.
  ghost predicate IsOffer(c: Catalog, b: Bindings, authored: seq<Authored>, ops: seq<Operation>, maxima: Maxima, offer: Offer)
    requires BindsAll(b)
  {
    && OffersToAll(authored, offer) && offer.Keys == maxima.Keys
    && forall a, id :: a in offer ==> (id in offer[a] <==> Offers(c, b, maxima, ops, id) && InFamily(c, id, b[a]))
  }

  // Everything a reachable operation asks for is offered through the application of its family.
  ghost predicate AskedIsOffered(c: Catalog, b: Bindings, p: Profile, op: Operation)
    requires BindsAll(b)
  {
    var a := ApplicationOf(b, op.family);
    && a in p.maxima && a in p.offer
    && forall i, e :: 0 <= i < |op.requirements| && e in op.requirements[i].effects ==>
         exists g :: Backs(c, p.maxima[a], op, op.requirements[i].serviceId, e, g) && g.groupId in p.offer[a]
  }

  // Offered within the ceiling, the authored recommendation within the offer, and every authored default but deny backed by the offer.
  ghost predicate ApplicationSound(c: Catalog, b: Bindings, p: Profile, a: Authored)
    requires BindsAll(b)
  {
    && a.application in p.offer && a.application in p.maxima
    && (forall id :: id in p.offer[a.application] ==> id in p.maxima[a.application])
    && (a.recommendation.Some? ==>
          var ids := RecommendedIds(c, a.recommendation.value, b[a.application]);
          ids.Some? && forall id :: id in ids.value ==> id in p.offer[a.application])
    && (a.defaults.Some? ==>
          var services := DefaultServices(c, a.defaults.value, b[a.application]);
          services.Some? && ServicesHold(c, b[a.application], p.offer[a.application], services.value))
  }

  ghost predicate OperationsListed(ops: seq<Operation>, ids: set<string>) {
    forall id :: id in ids <==> exists i :: 0 <= i < |ops| && ops[i].operationId == id
  }

  // The profile is made of the authored ceilings, recommendations and defaults and of the exact offer, and is sound.
  ghost predicate ProfileSound(c: Catalog, b: Bindings, authored: seq<Authored>, ops: seq<Operation>, p: Profile)
    requires BindsAll(b)
  {
    && AreMaxima(c, b, authored, p.maxima) && IsOffer(c, b, authored, ops, p.maxima, p.offer)
    && AllGranted(c, b, authored, p.offer, p.granted) && OperationsListed(ops, p.operationIds)
    && (forall i :: 0 <= i < |ops| ==> AskedIsOffered(c, b, p, ops[i]))
    && (forall i :: 0 <= i < |authored| ==> ApplicationSound(c, b, p, authored[i]))
  }

  // A refusal names the first thing wrong with the input, in the order of the checks.
  ghost predicate Justified(c: Catalog, b: Bindings, authored: seq<Authored>, ops: seq<Operation>, reason: Reason)
    requires BindsAll(b)
  {
    if !CeilingsFit(c, b, authored) then reason == ForeignCeiling
    else exists maxima :: AreMaxima(c, b, authored, maxima) && OverMaxima(c, b, authored, ops, maxima, reason)
  }

  ghost predicate OverMaxima(c: Catalog, b: Bindings, authored: seq<Authored>, ops: seq<Operation>, maxima: Maxima, reason: Reason)
    requires BindsAll(b)
  {
    if !AllCovered(c, b, maxima, ops) then exists i :: FirstUncovered(c, b, maxima, ops, i, reason)
    else exists offer :: IsOffer(c, b, authored, ops, maxima, offer) && OverOffer(c, b, authored, offer, reason)
  }

  ghost predicate OverOffer(c: Catalog, b: Bindings, authored: seq<Authored>, offer: Offer, reason: Reason)
    requires BindsAll(b) && OffersToAll(authored, offer)
  {
    if !NoneRefused(c, b, authored, offer, |authored|) then exists i :: FirstRefused(c, b, authored, offer, i, reason)
    else exists i :: FirstUnbacked(c, b, authored, offer, i, reason)
  }

  ghost predicate IsOutcome(c: Catalog, b: Bindings, authored: seq<Authored>, ops: seq<Operation>, r: Result<Profile>)
    requires BindsAll(b)
  {
    match r
    case Ok(p) => ProfileSound(c, b, authored, ops, p)
    case Failed(reason) => Justified(c, b, authored, ops, reason)
  }

  /** Compiles one profile: what it returns is sound, and what it refuses it refuses for the first reason in the input. */
  method CompileProfile(c: Catalog, b: Bindings, authored: seq<Authored>, ops: seq<Operation>) returns (r: Result<Profile>)
    requires BindsAll(b) && FamiliesDistinct(b) && DistinctApplications(authored)
    ensures IsOutcome(c, b, authored, ops, r)
  {
    var maxima := ResolveCeilings(c, b, authored);
    if maxima.Failed? {
      return Failed(maxima.reason);
    }
    MaximaFit(c, b, authored, maxima.value);
    var offered := OfferGroups(c, b, maxima.value, ops);
    if offered.Failed? {
      assert OverMaxima(c, b, authored, ops, maxima.value, offered.reason);
      return Failed(offered.reason);
    }
    r := WithinOffer(c, b, authored, ops, maxima.value, offered.value);
  }

  // The second half of the compilation: what was offered bounds recommendations and defaults.
  method WithinOffer(c: Catalog, b: Bindings, authored: seq<Authored>, ops: seq<Operation>, maxima: Maxima, offered: set<string>)
    returns (r: Result<Profile>)
    requires BindsAll(b) && FamiliesDistinct(b) && DistinctApplications(authored) && AreMaxima(c, b, authored, maxima)
    requires AllCovered(c, b, maxima, ops) && forall id :: id in offered <==> Offers(c, b, maxima, ops, id)
    ensures r.Ok? ==> ProfileSound(c, b, authored, ops, r.value)
    ensures r.Failed? ==> OverMaxima(c, b, authored, ops, maxima, r.reason)
  {
    var offer := map a | a in maxima :: OfferedFor(c, b, offered, a);
    OfferIs(c, b, authored, ops, maxima, offered, offer);
    var granted := Grant(c, b, authored, offer);
    if granted.Failed? {
      RefusedIsOver(c, b, authored, ops, maxima, offer, granted.reason);
      return Failed(granted.reason);
    }
    var problem := CheckDefaults(c, b, authored, offer, granted.value);
    if problem.Some? {
      UnbackedIsOver(c, b, authored, ops, maxima, offer, problem.value);
      return Failed(problem.value);
    }
    var profile := Profile(maxima, offer, granted.value, set i | 0 <= i < |ops| :: ops[i].operationId);
    AssembledIsSound(c, b, authored, ops, offered, profile);
    return Ok(profile);
  }

  lemma MaximaFit(c: Catalog, b: Bindings, authored: seq<Authored>, maxima: Maxima)
    requires BindsAll(b) && AreMaxima(c, b, authored, maxima)
    ensures CeilingsFit(c, b, authored)
  {
    forall i | 0 <= i < |authored| ensures CeilingFits(c, b, authored[i]) {
      assert HasMaximum(c, b, authored[i], maxima);
    }
  }

  lemma RefusedIsOver(c: Catalog, b: Bindings, authored: seq<Authored>, ops: seq<Operation>, maxima: Maxima, offer: Offer, reason: Reason)
    requires BindsAll(b) && AllCovered(c, b, maxima, ops) && IsOffer(c, b, authored, ops, maxima, offer)
    requires exists i :: FirstRefused(c, b, authored, offer, i, reason)
    ensures OverMaxima(c, b, authored, ops, maxima, reason)
  {
    assert OverOffer(c, b, authored, offer, reason);
  }

  lemma UnbackedIsOver(c: Catalog, b: Bindings, authored: seq<Authored>, ops: seq<Operation>, maxima: Maxima, offer: Offer, reason: Reason)
    requires BindsAll(b) && AllCovered(c, b, maxima, ops) && IsOffer(c, b, authored, ops, maxima, offer)
    requires NoneRefused(c, b, authored, offer, |authored|) && exists i :: FirstUnbacked(c, b, authored, offer, i, reason)
    ensures OverMaxima(c, b, authored, ops, maxima, reason)
  {
    assert OverOffer(c, b, authored, offer, reason);
  }

  lemma OfferIs(c: Catalog, b: Bindings, authored: seq<Authored>, ops: seq<Operation>, maxima: Maxima, offered: set<string>, offer: Offer)
    requires BindsAll(b) && AreMaxima(c, b, authored, maxima)
    requires forall id :: id in offered <==> Offers(c, b, maxima, ops, id)
    requires offer == map a | a in maxima :: OfferedFor(c, b, offered, a)
    ensures IsOffer(c, b, authored, ops, maxima, offer)
  {
    assert forall i :: 0 <= i < |authored| ==> HasMaximum(c, b, authored[i], maxima);
  }

  lemma AssembledIsSound(c: Catalog, b: Bindings, authored: seq<Authored>, ops: seq<Operation>, offered: set<string>, p: Profile)
    requires BindsAll(b) && FamiliesDistinct(b) && AreMaxima(c, b, authored, p.maxima)
    requires AllCovered(c, b, p.maxima, ops) && forall id :: id in offered <==> Offers(c, b, p.maxima, ops, id)
    requires p.offer == map a | a in p.maxima :: OfferedFor(c, b, offered, a)
    requires IsOffer(c, b, authored, ops, p.maxima, p.offer) && AllGranted(c, b, authored, p.offer, p.granted)
    requires NoneRefused(c, b, authored, p.offer, |authored|) && NoneUnbacked(c, b, authored, p.offer, |authored|)
    requires p.operationIds == set i | 0 <= i < |ops| :: ops[i].operationId
    ensures ProfileSound(c, b, authored, ops, p)
  {
    forall i | 0 <= i < |ops| ensures AskedIsOffered(c, b, p, ops[i]) {
      OperationSound(c, b, authored, ops, offered, p, i);
    }
    forall i | 0 <= i < |authored| ensures ApplicationSound(c, b, p, authored[i]) {
      GrantedIsSound(c, b, authored, ops, offered, p, i);
    }
  }

  lemma GrantedIsSound(c: Catalog, b: Bindings, authored: seq<Authored>, ops: seq<Operation>, offered: set<string>, p: Profile, i: nat)
    requires BindsAll(b) && FamiliesDistinct(b) && AreMaxima(c, b, authored, p.maxima) && i < |authored|
    requires forall id :: id in offered <==> Offers(c, b, p.maxima, ops, id)
    requires p.offer == map a | a in p.maxima :: OfferedFor(c, b, offered, a)
    requires OffersToAll(authored, p.offer) && GrantedAs(c, b, p.offer, authored[i], p.granted)
    requires DefaultProblem(c, b[authored[i].application], p.offer[authored[i].application], authored[i]).None?
    ensures ApplicationSound(c, b, p, authored[i])
  {
    var a := authored[i];
    assert HasMaximum(c, b, a, p.maxima);
    if a.defaults.Some? {
      NoVerdict(c, b[a.application], p.offer[a.application], DefaultServices(c, a.defaults.value, b[a.application]).value);
    }
    forall id | id in p.offer[a.application] ensures id in p.maxima[a.application] {
      OfferWithinCeiling(c, b, authored, p.maxima, ops, offered, a.application, id);
    }
  }

  lemma OperationSound(c: Catalog, b: Bindings, authored: seq<Authored>, ops: seq<Operation>, offered: set<string>, p: Profile, i: nat)
    requires BindsAll(b) && FamiliesDistinct(b) && AreMaxima(c, b, authored, p.maxima)
    requires i < |ops| && Covered(c, b, p.maxima, ops[i])
    requires forall id :: id in offered <==> Offers(c, b, p.maxima, ops, id)
    requires p.offer == map a | a in p.maxima :: OfferedFor(c, b, offered, a)
    ensures AskedIsOffered(c, b, p, ops[i])
  {
    var op := ops[i];
    var a := ApplicationOf(b, op.family);
    var k :| 0 <= k < |authored| && authored[k].application == a;
    assert HasMaximum(c, b, authored[k], p.maxima);
    forall j, e | 0 <= j < |op.requirements| && e in op.requirements[j].effects
      ensures exists g :: Backs(c, p.maxima[a], op, op.requirements[j].serviceId, e, g) && g.groupId in p.offer[a]
    {
      assert RequirementBacked(c, p.maxima[a], op, op.requirements[j]);
      assert EffectBacked(c, p.maxima[a], op, op.requirements[j].serviceId, e);
      var g :| Backs(c, p.maxima[a], op, op.requirements[j].serviceId, e, g);
      assert OffersFor(c, b, p.maxima, ops[i], g, g.groupId);
      var n :| 0 <= n < |p.maxima[a]| && p.maxima[a][n] == g.groupId;
      assert InFamily(c, p.maxima[a][n], b[a]);
    }
  }

  // ---------- The outcome is determined ----------

  lemma MaximaAreUnique(c: Catalog, b: Bindings, authored: seq<Authored>, m: Maxima, n: Maxima)
    requires BindsAll(b) && AreMaxima(c, b, authored, m) && AreMaxima(c, b, authored, n)
    ensures m == n
  {
    forall a | a in m ensures a in n && n[a] == m[a] {
      var i :| 0 <= i < |authored| && authored[i].application == a;
      assert HasMaximum(c, b, authored[i], m) && HasMaximum(c, b, authored[i], n);
    }
    forall a | a in n ensures a in m {
      var i :| 0 <= i < |authored| && authored[i].application == a;
      assert HasMaximum(c, b, authored[i], m);
    }
  }

  lemma OfferIsUnique(c: Catalog, b: Bindings, authored: seq<Authored>, ops: seq<Operation>, maxima: Maxima, x: Offer, y: Offer)
    requires BindsAll(b) && IsOffer(c, b, authored, ops, maxima, x) && IsOffer(c, b, authored, ops, maxima, y)
    ensures x == y
  {
    forall a | a in x ensures a in y && x[a] == y[a] {
      assert a in y.Keys;
      forall id ensures id in x[a] <==> id in y[a] {
        assert id in x[a] <==> Offers(c, b, maxima, ops, id) && InFamily(c, id, b[a]);
      }
    }
    assert x.Keys == y.Keys;
  }

  lemma GrantIsUnique(c: Catalog, b: Bindings, authored: seq<Authored>, offer: Offer, g: Granted, h: Granted)
    requires BindsAll(b) && OffersToAll(authored, offer)
    requires AllGranted(c, b, authored, offer, g) && AllGranted(c, b, authored, offer, h)
    ensures g == h
  {
    forall a: Application
      ensures a in g.recommendations <==> a in h.recommendations
      ensures a in g.recommendations ==> g.recommendations[a] == h.recommendations[a]
      ensures a in g.defaults <==> a in h.defaults
      ensures a in g.defaults ==> g.defaults[a] == h.defaults[a]
    {
      if i :| 0 <= i < |authored| && authored[i].application == a {
        assert GrantedAs(c, b, offer, authored[i], g) && GrantedAs(c, b, offer, authored[i], h);
      }
    }
    assert g.recommendations == h.recommendations && g.defaults == h.defaults;
  }

  // A sound profile leaves no refusal possible.
  lemma SoundIsNotRefused(c: Catalog, b: Bindings, authored: seq<Authored>, ops: seq<Operation>, p: Profile, reason: Reason)
    requires BindsAll(b) && ProfileSound(c, b, authored, ops, p)
    ensures !Justified(c, b, authored, ops, reason)
  {
    MaximaFit(c, b, authored, p.maxima);
    forall maxima | AreMaxima(c, b, authored, maxima) ensures !OverMaxima(c, b, authored, ops, maxima, reason) {
      MaximaAreUnique(c, b, authored, maxima, p.maxima);
      SoundIsCovered(c, b, ops, p);
      forall offer | IsOffer(c, b, authored, ops, maxima, offer) ensures !OverOffer(c, b, authored, offer, reason) {
        OfferIsUnique(c, b, authored, ops, maxima, offer, p.offer);
        SoundIsGranted(c, b, authored, p);
      }
    }
  }

  lemma SoundIsCovered(c: Catalog, b: Bindings, ops: seq<Operation>, p: Profile)
    requires BindsAll(b) && forall i :: 0 <= i < |ops| ==> AskedIsOffered(c, b, p, ops[i])
    ensures AllCovered(c, b, p.maxima, ops)
  {
    forall i | 0 <= i < |ops| ensures Covered(c, b, p.maxima, ops[i]) {
      var op, a := ops[i], ApplicationOf(b, ops[i].family);
      assert AskedIsOffered(c, b, p, op);
      forall j, e | 0 <= j < |op.requirements| && e in op.requirements[j].effects
        ensures EffectBacked(c, p.maxima[a], op, op.requirements[j].serviceId, e)
      {
        var g :| Backs(c, p.maxima[a], op, op.requirements[j].serviceId, e, g) && g.groupId in p.offer[a];
      }
    }
  }

  lemma SoundIsGranted(c: Catalog, b: Bindings, authored: seq<Authored>, p: Profile)
    requires BindsAll(b) && OffersToAll(authored, p.offer) && AllGranted(c, b, authored, p.offer, p.granted)
    requires forall i :: 0 <= i < |authored| ==> ApplicationSound(c, b, p, authored[i])
    ensures NoneRefused(c, b, authored, p.offer, |authored|) && NoneUnbacked(c, b, authored, p.offer, |authored|)
  {
    forall i | 0 <= i < |authored|
      ensures GrantProblem(c, b[authored[i].application], p.offer[authored[i].application], authored[i]).None?
      ensures DefaultProblem(c, b[authored[i].application], p.offer[authored[i].application], authored[i]).None?
    {
      var a := authored[i];
      assert GrantedAs(c, b, p.offer, a, p.granted) && ApplicationSound(c, b, p, a);
      if a.defaults.Some? {
        NoVerdict(c, b[a.application], p.offer[a.application], DefaultServices(c, a.defaults.value, b[a.application]).value);
      }
    }
  }

  lemma SoundIsUnique(c: Catalog, b: Bindings, authored: seq<Authored>, ops: seq<Operation>, p: Profile, q: Profile)
    requires BindsAll(b) && ProfileSound(c, b, authored, ops, p) && ProfileSound(c, b, authored, ops, q)
    ensures p == q
  {
    MaximaAreUnique(c, b, authored, p.maxima, q.maxima);
    OfferIsUnique(c, b, authored, ops, p.maxima, p.offer, q.offer);
    GrantIsUnique(c, b, authored, p.offer, p.granted, q.granted);
    assert p.operationIds == q.operationIds;
  }

  lemma ReasonIsUnique(c: Catalog, b: Bindings, authored: seq<Authored>, ops: seq<Operation>, x: Reason, y: Reason)
    requires BindsAll(b) && Justified(c, b, authored, ops, x) && Justified(c, b, authored, ops, y)
    ensures x == y
  {
    if CeilingsFit(c, b, authored) {
      var m :| AreMaxima(c, b, authored, m) && OverMaxima(c, b, authored, ops, m, x);
      var n :| AreMaxima(c, b, authored, n) && OverMaxima(c, b, authored, ops, n, y);
      MaximaAreUnique(c, b, authored, m, n);
      OverIsUnique(c, b, authored, ops, m, x, y);
    }
  }

  lemma OverIsUnique(c: Catalog, b: Bindings, authored: seq<Authored>, ops: seq<Operation>, maxima: Maxima, x: Reason, y: Reason)
    requires BindsAll(b) && OverMaxima(c, b, authored, ops, maxima, x) && OverMaxima(c, b, authored, ops, maxima, y)
    ensures x == y
  {
    if !AllCovered(c, b, maxima, ops) {
      var i :| FirstUncovered(c, b, maxima, ops, i, x);
      var j :| FirstUncovered(c, b, maxima, ops, j, y);
      assert i == j;
    } else {
      var o :| IsOffer(c, b, authored, ops, maxima, o) && OverOffer(c, b, authored, o, x);
      var o' :| IsOffer(c, b, authored, ops, maxima, o') && OverOffer(c, b, authored, o', y);
      OfferIsUnique(c, b, authored, ops, maxima, o, o');
      OverOfferIsUnique(c, b, authored, o, x, y);
    }
  }

  lemma OverOfferIsUnique(c: Catalog, b: Bindings, authored: seq<Authored>, offer: Offer, x: Reason, y: Reason)
    requires BindsAll(b) && OffersToAll(authored, offer)
    requires OverOffer(c, b, authored, offer, x) && OverOffer(c, b, authored, offer, y)
    ensures x == y
  {
    if NoneRefused(c, b, authored, offer, |authored|) {
      var i :| FirstUnbacked(c, b, authored, offer, i, x);
      var j :| FirstUnbacked(c, b, authored, offer, j, y);
      assert i == j;
    } else {
      RefusedOnce(c, b, authored, offer, x, y);
    }
  }

  lemma RefusedOnce(c: Catalog, b: Bindings, authored: seq<Authored>, offer: Offer, x: Reason, y: Reason)
    requires BindsAll(b) && OffersToAll(authored, offer)
    requires exists i :: FirstRefused(c, b, authored, offer, i, x)
    requires exists i :: FirstRefused(c, b, authored, offer, i, y)
    ensures x == y
  {
    var i :| FirstRefused(c, b, authored, offer, i, x);
    var j :| FirstRefused(c, b, authored, offer, j, y);
    assert i == j;
  }

  /** The description leaves one outcome: a sound profile is never refused, and profile and reason are determined by the input. */
  lemma OutcomeIsDetermined(c: Catalog, b: Bindings, authored: seq<Authored>, ops: seq<Operation>, x: Result<Profile>, y: Result<Profile>)
    requires BindsAll(b) && IsOutcome(c, b, authored, ops, x) && IsOutcome(c, b, authored, ops, y)
    ensures x == y
  {
    if x.Ok? && y.Ok? {
      SoundIsUnique(c, b, authored, ops, x.value, y.value);
    } else if x.Failed? && y.Failed? {
      ReasonIsUnique(c, b, authored, ops, x.reason, y.reason);
    } else {
      SoundIsNotRefused(c, b, authored, ops, if x.Ok? then x.value else y.value, if x.Ok? then y.reason else x.reason);
    }
  }
}
