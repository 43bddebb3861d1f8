/**
 * What the OAuth policy compiler offers and why it refuses, on the fields of the catalog, the
 * bindings and the authored applications.
 */
module OAuthReasons {
  import opened Options
  import opened OAuthPolicy

  // ---------- Groups ----------

  ghost predicate Belongs(c: Catalog, id: string, family: Family) {
    exists k :: 0 <= k < |c.groups| && c.groups[k].groupId == id && c.groups[k].family == family
  }

  lemma {:induction false} GroupByIdFinds(groups: seq<Group>, id: string, k: nat)
    requires GroupsDistinct(groups) && k < |groups| && groups[k].groupId == id
    ensures GroupById(groups, id) == Some(groups[k])
  {
    if k < |groups| - 1 {
      assert groups[|groups| - 1].groupId != id;
      GroupByIdFinds(groups[..|groups| - 1], id, k);
    }
  }

  // In a catalog with distinct IDs a group is in the family it says.
  lemma InFamilyMeans(c: Catalog, id: string, family: Family)
    requires GroupsDistinct(c.groups)
    ensures InFamily(c, id, family) <==> Belongs(c, id, family)
  {
    if InFamily(c, id, family) {
      var g := GroupById(c.groups, id).value;
      var k :| 0 <= k < |c.groups| && c.groups[k] == g;
    }
    if k :| 0 <= k < |c.groups| && c.groups[k].groupId == id && c.groups[k].family == family {
      GroupByIdFinds(c.groups, id, k);
    }
  }

  ghost predicate SomeForeign(c: Catalog, ids: seq<string>, family: Family) {
    exists i :: 0 <= i < |ids| && !Belongs(c, ids[i], family)
  }

  lemma AllInFamilyMeans(c: Catalog, ids: seq<string>, family: Family)
    requires GroupsDistinct(c.groups)
    ensures AllInFamily(c, ids, family) <==> !SomeForeign(c, ids, family)
  {
    forall i | 0 <= i < |ids| ensures InFamily(c, ids[i], family) <==> Belongs(c, ids[i], family) {
      InFamilyMeans(c, ids[i], family);
    }
  }

  // ---------- The offer ----------

  // A group in the ceiling of the application bound to the operation's family lists the operation.
  ghost predicate OfferedThrough(c: Catalog, b: Bindings, maxima: Maxima, op: Operation, k: int, a: Application)
    requires BindsAll(b)
  {
    && 0 <= k < |c.groups| && a in maxima && b[a] == op.family
    && c.groups[k].groupId in maxima[a] && op.operationId in c.groups[k].operationIds
  }

  /** A group is offered exactly if some reachable operation is listed by it and the ceiling of that operation's family contains it. */
  lemma OfferMeans(c: Catalog, b: Bindings, maxima: Maxima, ops: seq<Operation>, id: string)
    requires BindsAll(b) && FamiliesDistinct(b)
    ensures Offers(c, b, maxima, ops, id) <==>
              exists i, k, a :: 0 <= i < |ops| && OfferedThrough(c, b, maxima, ops[i], k, a) && c.groups[k].groupId == id
  {
    if Offers(c, b, maxima, ops, id) {
      var i, g :| 0 <= i < |ops| && OffersFor(c, b, maxima, ops[i], g, id);
      var a := ApplicationOf(b, ops[i].family);
      BindingsInvert(b, ops[i].family, a);
      var k :| 0 <= k < |c.groups| && c.groups[k] == g;
      assert OfferedThrough(c, b, maxima, ops[i], k, a);
    }
    if i, k, a :| 0 <= i < |ops| && OfferedThrough(c, b, maxima, ops[i], k, a) && c.groups[k].groupId == id {
      BindingsInvert(b, ops[i].family, a);
      assert OffersFor(c, b, maxima, ops[i], c.groups[k], id);
    }
  }

  // ---------- What is referred to ----------

  /** A preset stands for its groups of the family, and a collection only in the version named. */
  lemma ReferencesResolve(c: Catalog, id: string, version: string, family: Family)
    ensures CeilingIds(c, PresetCeiling(id), family).Some? <==> id in c.ceilingPresets && family in c.ceilingPresets[id]
    ensures forall ids :: CeilingIds(c, PresetCeiling(id), family) == Some(ids) ==> ids == c.ceilingPresets[id][family]
    ensures RecommendedIds(c, CollectionRecommendation(id, version), family).Some? <==>
              id in c.collections && c.collections[id].version == version && family in c.collections[id].selections
    ensures forall ids :: RecommendedIds(c, CollectionRecommendation(id, version), family) == Some(ids) ==>
              ids == c.collections[id].selections[family]
    ensures DefaultServices(c, CollectionDefaults(id, version), family).Some? <==>
              id in c.collections && c.collections[id].version == version && family in c.collections[id].defaults
    ensures forall services :: DefaultServices(c, CollectionDefaults(id, version), family) == Some(services) ==>
              services == c.collections[id].defaults[family]
  {
  }

  // ---------- The reasons ----------

  ghost predicate UnresolvedOrForeign(c: Catalog, ids: Option<seq<string>>, family: Family) {
    ids.None? || SomeForeign(c, ids.value, family)
  }

  ghost predicate CeilingIsForeign(c: Catalog, b: Bindings, a: Authored)
    requires BindsAll(b)
  {
    UnresolvedOrForeign(c, CeilingIds(c, a.ceiling, b[a.application]), b[a.application])
  }

  // No group in the ceiling that lists the operation grants this effect on this service.
  ghost predicate Lacks(c: Catalog, ceiling: seq<string>, op: Operation, serviceId: string, effect: Effect) {
    forall k :: 0 <= k < |c.groups| && c.groups[k].groupId in ceiling && op.operationId in c.groups[k].operationIds ==>
      !(c.groups[k].serviceId == serviceId && c.groups[k].effect == effect)
  }

  ghost predicate LacksSomething(c: Catalog, ceiling: seq<string>, op: Operation) {
    exists j, e :: 0 <= j < |op.requirements| && e in op.requirements[j].effects && Lacks(c, ceiling, op, op.requirements[j].serviceId, e)
  }

  ghost predicate NoAuthoredFamily(b: Bindings, authored: seq<Authored>, family: Family)
    requires BindsAll(b)
  {
    forall i :: 0 <= i < |authored| ==> b[authored[i].application] != family
  }

  ghost predicate RecommendsBeyond(c: Catalog, b: Bindings, a: Authored, offered: set<string>)
    requires BindsAll(b)
  {
    && a.recommendation.Some?
    && var ids := RecommendedIds(c, a.recommendation.value, b[a.application]);
       ids.Some? && exists i :: 0 <= i < |ids.value| && ids.value[i] !in offered
  }

  ghost predicate SupportsNo(c: Catalog, family: Family, serviceId: string) {
    forall k :: 0 <= k < |c.groups| && c.groups[k].family == family ==> c.groups[k].serviceId != serviceId
  }

  // A default asks for or allows an effect that no offered group of the family grants on the service.
  ghost predicate DefaultBeyond(c: Catalog, family: Family, offered: set<string>, s: ServiceDefault, e: Effect) {
    && (var disposition := if e.Read? then s.read else s.write; disposition == Some(Ask) || disposition == Some(Allow))
    && forall k :: 0 <= k < |c.groups| && c.groups[k].groupId in offered && c.groups[k].family == family ==>
         !(c.groups[k].serviceId == s.serviceId && c.groups[k].effect == e)
  }

  ghost predicate HasDefault(c: Catalog, b: Bindings, a: Authored, s: ServiceDefault)
    requires BindsAll(b)
  {
    && a.defaults.Some?
    && var services := DefaultServices(c, a.defaults.value, b[a.application]);
       services.Some? && s in services.value
  }

  // What a reason says about the input, given the ceilings and the offer they lead to.
  ghost predicate Explains(c: Catalog, b: Bindings, authored: seq<Authored>, ops: seq<Operation>, maxima: Maxima, offer: Offer, reason: Reason)
    requires BindsAll(b)
  {
    match reason
    case ForeignCeiling => exists i :: 0 <= i < |authored| && CeilingIsForeign(c, b, authored[i])
    case NoCeiling => exists i :: 0 <= i < |ops| && NoAuthoredFamily(b, authored, ops[i].family)
    case ExceedsCeiling =>
      exists i, a :: 0 <= i < |ops| && a in maxima && b[a] == ops[i].family && LacksSomething(c, maxima[a], ops[i])
    case ForeignRecommendation =>
      exists i :: 0 <= i < |authored| && authored[i].recommendation.Some?
                  && UnresolvedOrForeign(c, RecommendedIds(c, authored[i].recommendation.value, b[authored[i].application]), b[authored[i].application])
    case RecommendationExceedsOffer =>
      exists i :: 0 <= i < |authored| && authored[i].application in offer && RecommendsBeyond(c, b, authored[i], offer[authored[i].application])
    case UnknownDefaults =>
      exists i :: 0 <= i < |authored| && authored[i].defaults.Some?
                  && DefaultServices(c, authored[i].defaults.value, b[authored[i].application]).None?
    case UnsupportedService =>
      exists i, s :: 0 <= i < |authored| && HasDefault(c, b, authored[i], s) && SupportsNo(c, b[authored[i].application], s.serviceId)
    case DefaultsExceedOffer =>
      exists i, s, e :: 0 <= i < |authored| && authored[i].application in offer && HasDefault(c, b, authored[i], s)
                        && DefaultBeyond(c, b[authored[i].application], offer[authored[i].application], s, e)
  }

  lemma UncoveredExplains(c: Catalog, b: Bindings, authored: seq<Authored>, ops: seq<Operation>, maxima: Maxima, offer: Offer, i: int, reason: Reason)
    requires BindsAll(b) && FamiliesDistinct(b) && AreMaxima(c, b, authored, maxima) && FirstUncovered(c, b, maxima, ops, i, reason)
    ensures Explains(c, b, authored, ops, maxima, offer, reason)
  {
    var op, a := ops[i], ApplicationOf(b, ops[i].family);
    BindingsInvert(b, op.family, a);
    if a in maxima {
      var j :| 0 <= j < |op.requirements| && !RequirementBacked(c, maxima[a], op, op.requirements[j]);
      var e :| e in op.requirements[j].effects && !EffectBacked(c, maxima[a], op, op.requirements[j].serviceId, e);
      forall k | 0 <= k < |c.groups| && c.groups[k].groupId in maxima[a] && op.operationId in c.groups[k].operationIds
        ensures !(c.groups[k].serviceId == op.requirements[j].serviceId && c.groups[k].effect == e)
      {
        assert !Backs(c, maxima[a], op, op.requirements[j].serviceId, e, c.groups[k]);
      }
      assert Lacks(c, maxima[a], op, op.requirements[j].serviceId, e);
    } else {
      forall k | 0 <= k < |authored| ensures b[authored[k].application] != op.family {
        assert HasMaximum(c, b, authored[k], maxima);
        BindingsInvert(b, op.family, authored[k].application);
      }
      assert NoAuthoredFamily(b, authored, ops[i].family);
    }
  }

  lemma RefusedExplains(c: Catalog, b: Bindings, authored: seq<Authored>, ops: seq<Operation>, maxima: Maxima, offer: Offer, i: int, reason: Reason)
    requires BindsAll(b) && GroupsDistinct(c.groups) && OffersToAll(authored, offer) && FirstRefused(c, b, authored, offer, i, reason)
    ensures Explains(c, b, authored, ops, maxima, offer, reason) && reason != ForeignCeiling
  {
    var a := authored[i];
    if a.recommendation.Some? {
      var ids := RecommendedIds(c, a.recommendation.value, b[a.application]);
      if ids.Some? {
        AllInFamilyMeans(c, ids.value, b[a.application]);
      }
    }
  }

  lemma {:induction false} VerdictExplains(c: Catalog, family: Family, offered: set<string>, services: seq<ServiceDefault>)
    returns (s: ServiceDefault)
    requires FirstVerdict(c, family, offered, services).Some?
    ensures s in services && DefaultVerdict(c, family, offered, s) == FirstVerdict(c, family, offered, services)
  {
    if DefaultVerdict(c, family, offered, services[0]).Some? {
      s := services[0];
    } else {
      s := VerdictExplains(c, family, offered, services[1..]);
    }
  }

  lemma DefaultExplains(c: Catalog, family: Family, offered: set<string>, s: ServiceDefault) returns (e: Effect)
    requires DefaultVerdict(c, family, offered, s).Some?
    ensures DefaultVerdict(c, family, offered, s).value == UnsupportedService ==> SupportsNo(c, family, s.serviceId)
    ensures DefaultVerdict(c, family, offered, s).value != UnsupportedService ==>
              DefaultVerdict(c, family, offered, s).value == DefaultsExceedOffer && DefaultBeyond(c, family, offered, s, e)
  {
    e := if DefaultBacked(c, family, offered, s, Read) then Write else Read;
    if Supported(c, family, s.serviceId) {
      assert s.Of(e).Some? && s.Of(e).value != Deny && !OfferedGroup(c, family, offered, s.serviceId, e);
      assert s.Of(e).value == Ask || s.Of(e).value == Allow;
    }
  }

  lemma UnbackedExplains(c: Catalog, b: Bindings, authored: seq<Authored>, ops: seq<Operation>, maxima: Maxima, offer: Offer, i: int, reason: Reason)
    requires BindsAll(b) && OffersToAll(authored, offer) && FirstUnbacked(c, b, authored, offer, i, reason)
    ensures Explains(c, b, authored, ops, maxima, offer, reason) && reason != ForeignCeiling
  {
    var a := authored[i];
    var family, offered := b[a.application], offer[a.application];
    var services := DefaultServices(c, a.defaults.value, family).value;
    var s := VerdictExplains(c, family, offered, services);
    var e := DefaultExplains(c, family, offered, s);
    assert HasDefault(c, b, authored[i], s);
  }

  /** Every refusal is explained by the input: whatever reason the compiler gives, what the reason says is so. */
  lemma RefusalIsExplained(c: Catalog, b: Bindings, authored: seq<Authored>, ops: seq<Operation>, reason: Reason)
    requires BindsAll(b) && FamiliesDistinct(b) && GroupsDistinct(c.groups) && IsOutcome(c, b, authored, ops, Failed(reason))
    ensures reason == ForeignCeiling ==> exists i :: 0 <= i < |authored| && CeilingIsForeign(c, b, authored[i])
    ensures reason != ForeignCeiling ==>
              exists maxima, offer :: AreMaxima(c, b, authored, maxima) && Explains(c, b, authored, ops, maxima, offer, reason)
                                      && (AllCovered(c, b, maxima, ops) ==> IsOffer(c, b, authored, ops, maxima, offer))
  {
    if !CeilingsFit(c, b, authored) {
      var i :| 0 <= i < |authored| && !CeilingFits(c, b, authored[i]);
      var ids := CeilingIds(c, authored[i].ceiling, b[authored[i].application]);
      if ids.Some? {
        AllInFamilyMeans(c, ids.value, b[authored[i].application]);
      }
      assert CeilingIsForeign(c, b, authored[i]);
    } else {
      var maxima :| AreMaxima(c, b, authored, maxima) && OverMaxima(c, b, authored, ops, maxima, reason);
      var offer := OverMaximaExplains(c, b, authored, ops, maxima, reason);
    }
  }

  lemma OverMaximaExplains(c: Catalog, b: Bindings, authored: seq<Authored>, ops: seq<Operation>, maxima: Maxima, reason: Reason)
    returns (offer: Offer)
    requires BindsAll(b) && FamiliesDistinct(b) && GroupsDistinct(c.groups)
    requires AreMaxima(c, b, authored, maxima) && OverMaxima(c, b, authored, ops, maxima, reason)
    ensures Explains(c, b, authored, ops, maxima, offer, reason) && reason != ForeignCeiling
    ensures AllCovered(c, b, maxima, ops) ==> IsOffer(c, b, authored, ops, maxima, offer)
  {
    if AllCovered(c, b, maxima, ops) {
      offer :| IsOffer(c, b, authored, ops, maxima, offer) && OverOffer(c, b, authored, offer, reason);
      OverOfferExplains(c, b, authored, ops, maxima, offer, reason);
    } else {
      var i :| FirstUncovered(c, b, maxima, ops, i, reason);
      offer := map[];
      UncoveredExplains(c, b, authored, ops, maxima, offer, i, reason);
    }
  }

  lemma OverOfferExplains(c: Catalog, b: Bindings, authored: seq<Authored>, ops: seq<Operation>, maxima: Maxima, offer: Offer, reason: Reason)
    requires BindsAll(b) && GroupsDistinct(c.groups) && OffersToAll(authored, offer) && OverOffer(c, b, authored, offer, reason)
    ensures Explains(c, b, authored, ops, maxima, offer, reason) && reason != ForeignCeiling
  {
    if NoneRefused(c, b, authored, offer, |authored|) {
      var i :| FirstUnbacked(c, b, authored, offer, i, reason);
      UnbackedExplains(c, b, authored, ops, maxima, offer, i, reason);
    } else {
      var i :| FirstRefused(c, b, authored, offer, i, reason);
      RefusedExplains(c, b, authored, ops, maxima, offer, i, reason);
    }
  }
}
