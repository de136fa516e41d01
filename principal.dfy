/**
 * The principal's organisation-restricted views and edits: the peer reviews
 * of the organisation's observations, its observers, and the guarded
 * mapping, unmapping and deletion routes. Every edit first checks that the
 * records it touches belong to the principal's organisation.
 */
module Principal {
  import opened Wrappers
  import opened Tables
  import opened Sorting
  import opened Database

  /**
   * A store filter `organization_id = org`: a row matches only a present
   * organisation equal to its own (a NULL column matches nothing).
   */
  predicate MatchesOrg(rowOrg: Option<string>, org: Option<string>)
  {
    org.Some? && rowOrg == org
  }

  /** A form field that was sent and is not empty. */
  predicate Present(field: Option<string>)
  {
    field.Some? && field.value != ""
  }

  predicate UserInOrg(users: seq<User>, id: string, org: Option<string>)
  {
    exists k | 0 <= k < |users| :: users[k].id == id && MatchesOrg(users[k].organizationId, org)
  }

  predicate ChildInOrg(children: seq<Child>, id: string, org: Option<string>)
  {
    exists k | 0 <= k < |children| :: children[k].id == id && MatchesOrg(children[k].organizationId, org)
  }

  // ---------------------------------------------------------------- peer reviews of the organisation

  /** The ids of the organisation's users, in store order. */
  function OrgUserIds(users: seq<User>, org: Option<string>): (r: seq<string>)
    ensures forall id :: id in r <==> exists u :: u in users && u.id == id && MatchesOrg(u.organizationId, org)
  {
    if |users| == 0 then []
    else
      var rest := OrgUserIds(users[1..], org);
      assert forall u :: u in users[1..] ==> u in users;
      assert forall u :: u in users ==> u == users[0] || u in users[1..];
      (if MatchesOrg(users[0].organizationId, org) then [users[0].id] else []) + rest
  }

  /** The ids of the observations authored by those users. */
  function OrgObservationIds(observations: seq<Observation>, userIds: seq<string>): (r: seq<string>)
    ensures forall id :: id in r <==> exists o :: o in observations && o.id == id && o.username in userIds
  {
    if |observations| == 0 then []
    else
      var rest := OrgObservationIds(observations[1..], userIds);
      assert forall o :: o in observations[1..] ==> o in observations;
      assert forall o :: o in observations ==> o == observations[0] || o in observations[1..];
      (if observations[0].username in userIds then [observations[0].id] else []) + rest
  }

  lemma {:induction false} NoAuthorsNoObservations(observations: seq<Observation>)
    ensures OrgObservationIds(observations, []) == []
  {
    if |observations| > 0 {
      NoAuthorsNoObservations(observations[1..]);
    }
  }

  /** The reviews on the listed observations, in the given order. */
  function ReviewsOn(reviews: seq<PeerReview>, observationIds: seq<string>): (r: seq<PeerReview>)
    ensures forall rv :: rv in r <==> rv in reviews && rv.observationId in observationIds
  {
    if |reviews| == 0 then []
    else
      var init := reviews[..|reviews| - 1];
      var last := reviews[|reviews| - 1];
      assert reviews == init + [last];
      ReviewsOn(init, observationIds) + (if last.observationId in observationIds then [last] else [])
  }

  /** Selecting from a review list is selecting from each part: the kept reviews keep their order. */
  lemma {:induction false} ReviewsOnConcat(a: seq<PeerReview>, b: seq<PeerReview>, observationIds: seq<string>)
    ensures ReviewsOn(a + b, observationIds) == ReviewsOn(a, observationIds) + ReviewsOn(b, observationIds)
    decreases |b|
  {
    if |b| == 0 {
      assert a + b == a;
    } else {
      var init := b[..|b| - 1];
      assert (a + b)[..|a + b| - 1] == a + init;
      assert (a + b)[|a + b| - 1] == b[|b| - 1];
      ReviewsOnConcat(a, init, observationIds);
    }
  }

  function CreatedAt(r: PeerReview): int
  {
    r.createdAt
  }

  /** Keeping some elements of a newest-first list keeps it newest first. */
  lemma {:induction false} ReviewsOnKeepsOrder(reviews: seq<PeerReview>, observationIds: seq<string>)
    requires SortedDesc(reviews, CreatedAt)
    ensures SortedDesc(ReviewsOn(reviews, observationIds), CreatedAt)
  {
    if |reviews| > 0 {
      var init := reviews[..|reviews| - 1];
      var last := reviews[|reviews| - 1];
      ReviewsOnKeepsOrder(init, observationIds);
      var kept := ReviewsOn(init, observationIds);
      forall k | 0 <= k < |kept| ensures CreatedAt(kept[k]) >= CreatedAt(last) {
        assert kept[k] in init;
        var j :| 0 <= j < |init| && init[j] == kept[k];
        assert reviews[j] == kept[k];
      }
    }
  }

  /** The users of the organisation whose role is Observer. */
  function OrgObservers(users: seq<User>, org: Option<string>): (r: seq<User>)
    ensures forall u :: u in r <==> u in users && MatchesOrg(u.organizationId, org) && u.role == "Observer"
  {
    if |users| == 0 then []
    else
      var rest := OrgObservers(users[1..], org);
      assert forall u :: u in users ==> u == users[0] || u in users[1..];
      (if MatchesOrg(users[0].organizationId, org) && users[0].role == "Observer" then [users[0]] else []) + rest
  }

  /**
   * A review is listed exactly when its observation was written by a user
   * of the organisation; the list is newest first.
   */
  lemma OrgReviewsMeaning(db: Db, org: Option<string>, rv: PeerReview)
    ensures var ids := OrgObservationIds(db.observations, OrgUserIds(db.users, org));
      var listed := ReviewsOn(SortDesc(db.reviews, CreatedAt), ids);
      SortedDesc(listed, CreatedAt) &&
      (rv in listed <==>
        (rv in db.reviews &&
         exists o, u :: o in db.observations && u in db.users && o.id == rv.observationId &&
           u.id == o.username && MatchesOrg(u.organizationId, org)))
  {
    var ids := OrgObservationIds(db.observations, OrgUserIds(db.users, org));
    var sorted := SortDesc(db.reviews, CreatedAt);
    ReviewsOnKeepsOrder(sorted, ids);
    assert rv in sorted <==> rv in db.reviews by {
      assert rv in sorted <==> rv in multiset(sorted);
      assert rv in db.reviews <==> rv in multiset(db.reviews);
    }
  }

  /**
   * The principal's peer-review page: the organisation's reviews, newest
   * first, and its observers; on a store failure every list is empty.
   */
  method OrgPeerReviews(db: Db, org: Option<string>) returns (listed: seq<PeerReview>, observers: seq<User>)
    ensures !db.online ==> listed == [] && observers == []
    ensures db.online ==>
      listed == ReviewsOn(SortDesc(db.reviews, CreatedAt), OrgObservationIds(db.observations, OrgUserIds(db.users, org))) &&
      observers == OrgObservers(db.users, org)
  {
    if !db.online {
      return [], [];
    }
    var all := SortDesc(db.reviews, CreatedAt);
    var userIds := OrgUserIds(db.users, org);
    var observationIds := if |userIds| > 0 then OrgObservationIds(db.observations, userIds) else [];
    if |userIds| == 0 {
      NoAuthorsNoObservations(db.observations);
    }
    listed := [];
    var i := 0;
    while i < |all|
      invariant 0 <= i <= |all|
      invariant listed == ReviewsOn(all[..i], observationIds)
    {
      if all[i].observationId in observationIds {
        listed := listed + [all[i]];
      }
      assert all[..i + 1][..i] == all[..i];
      i := i + 1;
    }
    assert all[..i] == all;
    observers := OrgObservers(db.users, org);
  }

  // ---------------------------------------------------------------- mappings

  datatype MappingOutcome =
    | SelectBoth          // a required selection is missing
    | ObserverNotFound    // no such observer in the organisation
    | ParentNotFound      // no such parent in the organisation
    | ChildNotFound       // no such child in the organisation
    | Mapped
    | StoreFailed

  /** The outcome of an observer-child mapping request. */
  function ObserverChildDecision(users: seq<User>, children: seq<Child>, org: Option<string>,
                                 observerId: Option<string>, childId: Option<string>, online: bool): (r: MappingOutcome)
    ensures r == Mapped <==>
      (online && Present(observerId) && Present(childId) &&
       UserInOrg(users, observerId.value, org) && ChildInOrg(children, childId.value, org))
  {
    if !Present(observerId) || !Present(childId) then SelectBoth
    else if !online then StoreFailed
    else if !UserInOrg(users, observerId.value, org) then ObserverNotFound
    else if !ChildInOrg(children, childId.value, org) then ChildNotFound
    else Mapped
  }

  /**
   * `add_mapping` for an observer and a child: one mapping row is inserted
   * exactly when both are selected and both belong to the organisation.
   */
  method AddObserverChildMapping(db: Db, org: Option<string>, observerId: Option<string>, childId: Option<string>, newId: string)
    returns (outcome: MappingOutcome)
    modifies db`mappings
    ensures outcome == ObserverChildDecision(db.users, db.children, org, observerId, childId, db.online)
    ensures outcome == Mapped ==> db.mappings == old(db.mappings) + [ObserverChildMapping(newId, observerId.value, childId.value)]
    ensures outcome != Mapped ==> db.mappings == old(db.mappings)
  {
    outcome := ObserverChildDecision(db.users, db.children, org, observerId, childId, db.online);
    if outcome == Mapped {
      db.mappings := db.mappings + [ObserverChildMapping(newId, observerId.value, childId.value)];
    }
  }

  /** The outcome of a parent-child mapping request. */
  function ParentChildDecision(users: seq<User>, children: seq<Child>, org: Option<string>,
                               parentId: Option<string>, childId: Option<string>, online: bool): (r: MappingOutcome)
    ensures r == Mapped <==>
      (online && Present(parentId) && Present(childId) &&
       UserInOrg(users, parentId.value, org) && ChildInOrg(children, childId.value, org))
  {
    if !Present(parentId) || !Present(childId) then SelectBoth
    else if !online then StoreFailed
    else if !UserInOrg(users, parentId.value, org) then ParentNotFound
    else if !ChildInOrg(children, childId.value, org) then ChildNotFound
    else Mapped
  }

  /**
   * `add_mapping` for a parent and a child: the parent's `child_id` is set
   * exactly when both belong to the organisation; no other row changes.
   */
  method AddParentChildMapping(db: Db, org: Option<string>, parentId: Option<string>, childId: Option<string>)
    returns (outcome: MappingOutcome)
    modifies db`users
    ensures outcome == ParentChildDecision(old(db.users), db.children, org, parentId, childId, db.online)
    ensures outcome == Mapped ==> db.users == SetChildOf(old(db.users), parentId.value, Some(childId.value))
    ensures outcome != Mapped ==> db.users == old(db.users)
  {
    outcome := ParentChildDecision(db.users, db.children, org, parentId, childId, db.online);
    if outcome == Mapped {
      db.users := SetChildOf(db.users, parentId.value, Some(childId.value));
    }
  }

  datatype GuardOutcome = NotInOrganisation | Done | StoreFailure

  /** The first mapping row with this id. */
  function FindMapping(mappings: seq<ObserverChildMapping>, id: string): (r: Option<ObserverChildMapping>)
    ensures r.Some? ==> r.value in mappings && r.value.id == id
    ensures r.None? <==> forall m :: m in mappings ==> m.id != id
  {
    if |mappings| == 0 then None
    else if mappings[0].id == id then Some(mappings[0])
    else
      var r := FindMapping(mappings[1..], id);
      assert forall m :: m in mappings ==> m == mappings[0] || m in mappings[1..];
      r
  }

  function WithoutMapping(mappings: seq<ObserverChildMapping>, id: string): (r: seq<ObserverChildMapping>)
    ensures forall m :: m in r <==> m in mappings && m.id != id
  {
    if |mappings| == 0 then []
    else
      var rest := WithoutMapping(mappings[1..], id);
      assert forall m :: m in mappings ==> m == mappings[0] || m in mappings[1..];
      (if mappings[0].id != id then [mappings[0]] else []) + rest
  }

  /**
   * Whether `delete_mapping` may go ahead: the mapping exists, its observer
   * exists, and the observer's organisation equals the principal's, compared
   * as values (so two missing organisations are equal).
   */
  function DeleteMappingDecision(mappings: seq<ObserverChildMapping>, users: seq<User>, org: Option<string>, id: string, online: bool): (r: GuardOutcome)
    ensures r == Done <==>
      (online && FindMapping(mappings, id).Some? &&
       FindUser(users, FindMapping(mappings, id).value.observerId).Some? &&
       FindUser(users, FindMapping(mappings, id).value.observerId).value.organizationId == org)
  {
    if !online then StoreFailure
    else match FindMapping(mappings, id)
      case None => NotInOrganisation
      case Some(m) =>
        match FindUser(users, m.observerId)
        case None => StoreFailure
        case Some(u) => if u.organizationId != org then NotInOrganisation else Done
  }

  /** `delete_mapping`: removes the mapping's rows only after the organisation check. */
  method DeleteMapping(db: Db, org: Option<string>, mappingId: string) returns (outcome: GuardOutcome)
    modifies db`mappings
    ensures outcome == DeleteMappingDecision(old(db.mappings), db.users, org, mappingId, db.online)
    ensures outcome == Done ==> db.mappings == WithoutMapping(old(db.mappings), mappingId)
    ensures outcome != Done ==> db.mappings == old(db.mappings)
  {
    outcome := DeleteMappingDecision(db.mappings, db.users, org, mappingId, db.online);
    if outcome == Done {
      db.mappings := WithoutMapping(db.mappings, mappingId);
    }
  }

  /** A principal of one organisation cannot delete a mapping whose observer belongs to another. */
  lemma DeleteMappingStaysInOrg(mappings: seq<ObserverChildMapping>, users: seq<User>, org: Option<string>, id: string, online: bool, u: User)
    requires FindMapping(mappings, id).Some? && FindUser(users, FindMapping(mappings, id).value.observerId) == Some(u)
    requires u.organizationId != org
    ensures DeleteMappingDecision(mappings, users, org, id, online) != Done
  {
  }

  /** `remove_parent_child_mapping`: clears the parent's child only for a parent of the organisation. */
  method RemoveParentChildMapping(db: Db, org: Option<string>, parentId: string) returns (outcome: GuardOutcome)
    modifies db`users
    ensures outcome == Done <==> db.online && UserInOrg(old(db.users), parentId, org)
    ensures outcome == Done ==> db.users == SetChildOf(old(db.users), parentId, None)
    ensures outcome != Done ==> db.users == old(db.users)
  {
    if !db.online {
      return StoreFailure;
    }
    if !UserInOrg(db.users, parentId, org) {
      return NotInOrganisation;
    }
    db.users := SetChildOf(db.users, parentId, None);
    outcome := Done;
  }

  function WithoutUser(users: seq<User>, id: string): (r: seq<User>)
    ensures forall u :: u in r <==> u in users && u.id != id
  {
    if |users| == 0 then []
    else
      var rest := WithoutUser(users[1..], id);
      assert forall u :: u in users ==> u == users[0] || u in users[1..];
      (if users[0].id != id then [users[0]] else []) + rest
  }

  function WithoutChild(children: seq<Child>, id: string): (r: seq<Child>)
    ensures forall c :: c in r <==> c in children && c.id != id
  {
    if |children| == 0 then []
    else
      var rest := WithoutChild(children[1..], id);
      assert forall c :: c in children ==> c == children[0] || c in children[1..];
      (if children[0].id != id then [children[0]] else []) + rest
  }

  /** `delete_user`: only a user of the organisation is deleted; every other row stays. */
  method DeleteUser(db: Db, org: Option<string>, userId: string) returns (outcome: GuardOutcome)
    modifies db`users
    ensures outcome == Done <==> db.online && UserInOrg(old(db.users), userId, org)
    ensures outcome == Done ==> db.users == WithoutUser(old(db.users), userId)
    ensures outcome != Done ==> db.users == old(db.users)
  {
    if !db.online {
      return StoreFailure;
    }
    if !UserInOrg(db.users, userId, org) {
      return NotInOrganisation;
    }
    db.users := WithoutUser(db.users, userId);
    outcome := Done;
  }

  /** `delete_child`: only a child of the organisation is deleted; every other row stays. */
  method DeleteChild(db: Db, org: Option<string>, childId: string) returns (outcome: GuardOutcome)
    modifies db`children
    ensures outcome == Done <==> db.online && ChildInOrg(old(db.children), childId, org)
    ensures outcome == Done ==> db.children == WithoutChild(old(db.children), childId)
    ensures outcome != Done ==> db.children == old(db.children)
  {
    if !db.online {
      return StoreFailure;
    }
    if !ChildInOrg(db.children, childId, org) {
      return NotInOrganisation;
    }
    db.children := WithoutChild(db.children, childId);
    outcome := Done;
  }

  /**
   * Deleting removes rows of that id only, and only from the principal's
   * organisation: a user outside it is still there afterwards.
   */
  lemma DeleteUserSparesOtherOrgs(users: seq<User>, org: Option<string>, userId: string, v: User)
    requires UserInOrg(users, userId, org)
    requires v in users && !MatchesOrg(v.organizationId, org)
    requires forall k, j :: 0 <= k < j < |users| ==> users[k].id != users[j].id
    ensures v in WithoutUser(users, userId)
  {
    var k :| 0 <= k < |users| && users[k].id == userId && MatchesOrg(users[k].organizationId, org);
    var j :| 0 <= j < |users| && users[j] == v;
    assert j != k;
  }
}
