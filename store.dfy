/** The handlers of the circles controller as methods of one store object
    whose fields are the tables they read and write; the flags handler is
    split into its GET branch (`FlagQueue`) and its DELETE branch
    (`ClearFlags`). Every handler except the tag listing and the flags
    handler takes the caller's id (and, for delete, role) from its
    arguments; those two use no caller at all. Create checks
    the requested host; edit, delete and tag changes look the target circle
    up and apply an ownership check; registration and the flag handlers
    check nothing. A mutating handler then performs a single insert, update
    or delete; the tag listing and the moderation queue only read. */
module CircleStore {
  import opened Tables
  import opened Circles
  import opened Moderation

  /** The row a create returns: the stored circle with its generated id. */
  datatype CircleRow = CircleRow(id: int, circle: Circle)

  /** The HTTP verb of a handler that both adds and removes. */
  datatype Verb = Put | Delete

  class Store {
    var circles: map<int, Circle>
    /** The next id the circles table will generate. */
    var nextId: int
    var registrations: seq<Registration>
    var circleTags: seq<CircleTag>
    var flags: seq<Flag>

    /** Generated ids are positive and every stored id lies below the next
        one, so a generated id is always new. */
    ghost predicate Valid()
      reads this
    {
      1 <= nextId && forall id :: id in circles ==> 1 <= id < nextId
    }

    constructor ()
      ensures Valid()
      ensures circles == map[] && nextId == 1
      ensures registrations == [] && circleTags == [] && flags == []
    {
      circles, nextId := map[], 1;
      registrations, circleTags, flags := [], [], [];
    }

    /** add_circle: a caller may only create a circle that names them as its
        host; the stored row gets a fresh id and the default participants
        limit when the request has none. */
    method AddCircle(callerId: int, req: AddRequest) returns (status: Status, created: Option<CircleRow>)
      requires Valid()
      modifies this
      ensures Valid()
      ensures status == Ok <==> req.hostId == Some(callerId)
      ensures req.hostId.None? ==> status == BadRequest
      ensures req.hostId.Some? && req.hostId.value != callerId ==> status == Unauthorized
      ensures created.Some? <==> status == Ok
      ensures created.Some? ==>
                created.value.id == old(nextId) && created.value.id !in old(circles) &&
                created.value.circle == NewCircle(req) &&
                circles == old(circles)[created.value.id := created.value.circle] &&
                nextId == old(nextId) + 1
      ensures created.None? ==> circles == old(circles) && nextId == old(nextId)
      ensures registrations == old(registrations) && circleTags == old(circleTags) && flags == old(flags)
    {
      if req.hostId.None? {
        return BadRequest, None;
      }
      if callerId != req.hostId.value {
        return Unauthorized, None;
      }
      var row := CircleRow(nextId, NewCircle(req));
      circles := circles[row.id := row.circle];
      nextId := nextId + 1;
      return Ok, Some(row);
    }

    /** edit_circle: a missing circle is reported before the host check, and
        only the host may edit; the stored row becomes the truthy-override
        merge of the request into it. */
    method EditCircle(callerId: int, req: EditRequest) returns (status: Status)
      requires Valid()
      modifies this
      ensures Valid()
      ensures status == NotFound <==> req.circleId !in old(circles)
      ensures status == Unauthorized <==>
                req.circleId in old(circles) && old(circles)[req.circleId].hostId != callerId
      ensures status == Ok <==> HostGate(old(circles), callerId, req.circleId) == Allow
      ensures status == Ok ==>
                circles == old(circles)[req.circleId := ApplyEdit(old(circles)[req.circleId], req)]
      ensures status != Ok ==> circles == old(circles)
      ensures circles.Keys == old(circles).Keys
      ensures forall id :: id in circles ==> circles[id].hostId == old(circles)[id].hostId
      ensures nextId == old(nextId)
      ensures registrations == old(registrations) && circleTags == old(circleTags) && flags == old(flags)
    {
      match HostGate(circles, callerId, req.circleId)
      case Missing =>
        return NotFound;
      case Deny =>
        return Unauthorized;
      case Allow =>
        circles := circles[req.circleId := ApplyEdit(circles[req.circleId], req)];
        return Ok;
    }

    /** delete_circle: a missing circle is reported before the role check;
        the host or an admin may delete, and only the circle's own row goes.
        Its registrations, tags and flags stay in their tables. */
    method DeleteCircle(callerId: int, role: string, circleId: int) returns (status: Status)
      requires Valid()
      modifies this
      ensures Valid()
      ensures status == NotFound <==> circleId !in old(circles)
      ensures status == Ok <==>
                circleId in old(circles) && (old(circles)[circleId].hostId == callerId || role == "admin")
      ensures status == Unauthorized <==> DeleteGate(old(circles), callerId, role, circleId) == Deny
      ensures status == Ok ==> circles == old(circles) - {circleId}
      ensures status != Ok ==> circles == old(circles)
      ensures nextId == old(nextId)
      ensures registrations == old(registrations) && circleTags == old(circleTags) && flags == old(flags)
    {
      match DeleteGate(circles, callerId, role, circleId)
      case Missing =>
        return NotFound;
      case Deny =>
        return Unauthorized;
      case Allow =>
        circles := circles - {circleId};
        return Ok;
    }

    /** manage_registration: PUT adds the pair (circle, caller); DELETE
        removes every such pair and nothing else. Neither checks that the
        circle exists or how many are registered. */
    method ManageRegistration(callerId: int, verb: Verb, circleId: int) returns (status: Status)
      requires Valid()
      modifies this
      ensures Valid()
      ensures status == Ok
      ensures verb == Put ==> registrations == old(registrations) + [Registration(circleId, callerId)]
      ensures verb == Delete ==> registrations == Without(old(registrations), Registration(circleId, callerId))
      ensures circles == old(circles) && nextId == old(nextId)
      ensures circleTags == old(circleTags) && flags == old(flags)
    {
      var pair := Registration(circleId, callerId);
      match verb {
        case Put =>
          registrations := registrations + [pair];
        case Delete =>
          registrations := Without(registrations, pair);
      }
      return Ok;
    }

    /** get_tags_by_circle: the tags of one circle, one per tag row. The
        query has no ORDER BY, so only the multiset of tags is promised. */
    method TagsOf(circleId: int) returns (data: seq<string>)
      ensures forall t :: multiset(data)[t] == multiset(circleTags)[CircleTag(circleId, t)]
      ensures forall t :: t in data <==> CircleTag(circleId, t) in circleTags
    {
      data := [];
      var i := 0;
      while i < |circleTags|
        invariant 0 <= i <= |circleTags|
        invariant data == TagNames(circleTags[..i], circleId)
      {
        if circleTags[i].circleId == circleId {
          data := data + [circleTags[i].tag];
        }
        assert circleTags[..i + 1][..i] == circleTags[..i];
        i := i + 1;
      }
      assert circleTags[..i] == circleTags;
      forall t ensures t in data <==> CircleTag(circleId, t) in circleTags {
        assert t in data <==> t in multiset(data);
        assert CircleTag(circleId, t) in circleTags <==> CircleTag(circleId, t) in multiset(circleTags);
      }
    }

    /** manage_tags: a missing circle is reported before the host check, and
        only the host may change tags; PUT adds the pair (circle, tag) and
        DELETE removes every copy of exactly that pair. */
    method ManageTags(callerId: int, verb: Verb, circleId: int, tag: string) returns (status: Status)
      requires Valid()
      modifies this
      ensures Valid()
      ensures status == NotFound <==> circleId !in old(circles)
      ensures status == Unauthorized <==> circleId in old(circles) && old(circles)[circleId].hostId != callerId
      ensures status == Ok <==> HostGate(old(circles), callerId, circleId) == Allow
      ensures status != Ok ==> circleTags == old(circleTags)
      ensures status == Ok && verb == Put ==> circleTags == old(circleTags) + [CircleTag(circleId, tag)]
      ensures status == Ok && verb == Delete ==> circleTags == Without(old(circleTags), CircleTag(circleId, tag))
      ensures circles == old(circles) && nextId == old(nextId)
      ensures registrations == old(registrations) && flags == old(flags)
    {
      match HostGate(circles, callerId, circleId)
      case Missing =>
        return NotFound;
      case Deny =>
        return Unauthorized;
      case Allow =>
        var row := CircleTag(circleId, tag);
        match verb {
          case Put =>
            circleTags := circleTags + [row];
          case Delete =>
            circleTags := Without(circleTags, row);
        }
        return Ok;
    }

    /** add_flag: any caller may flag any circle, once more each time. */
    method AddFlag(callerId: int, circleId: int) returns (status: Status)
      requires Valid()
      modifies this
      ensures Valid()
      ensures status == Ok
      ensures flags == old(flags) + [Flag(circleId, callerId)]
      ensures FlagCount(flags, circleId) == FlagCount(old(flags), circleId) + 1
      ensures circles == old(circles) && nextId == old(nextId)
      ensures registrations == old(registrations) && circleTags == old(circleTags)
    {
      FlagCountAppend(flags, Flag(circleId, callerId), circleId);
      flags := flags + [Flag(circleId, callerId)];
      return Ok;
    }

    /** delete_flag_by_user: removes the caller's own flags on the circle and
        no other row. */
    method DeleteFlagByUser(callerId: int, circleId: int) returns (status: Status)
      requires Valid()
      modifies this
      ensures Valid()
      ensures status == Ok
      ensures flags == Without(old(flags), Flag(circleId, callerId))
      ensures circles == old(circles) && nextId == old(nextId)
      ensures registrations == old(registrations) && circleTags == old(circleTags)
    {
      flags := Without(flags, Flag(circleId, callerId));
      return Ok;
    }

    /** manage_flags, GET: the moderation queue. Circles with equal counts
        may come in any order, as the query's ORDER BY leaves them. */
    method FlagQueue() returns (queue: seq<QueueEntry>)
      ensures SortedByCount(queue)
      ensures UniqueIds(queue)
      ensures IdsOf(queue) == set id | id in circles && FlagCount(flags, id) > 0
      ensures forall e :: e in queue ==>
                e.circleId in circles && e.circle == circles[e.circleId] &&
                e.flagCount == FlagCount(flags, e.circleId) && e.flagCount > 0
    {
      queue := Queue(circles, flags);
    }

    /** manage_flags, DELETE: removes every flag of the circle and no other
        row; open to every caller. */
    method ClearFlags(circleId: int) returns (status: Status)
      requires Valid()
      modifies this
      ensures Valid()
      ensures status == Ok
      ensures flags == WithoutCircleFlags(old(flags), circleId)
      ensures FlagCount(flags, circleId) == 0
      ensures circles == old(circles) && nextId == old(nextId)
      ensures registrations == old(registrations) && circleTags == old(circleTags)
    {
      flags := WithoutCircleFlags(flags, circleId);
      return Ok;
    }
  }

  /** Host 42 creates "Run club"; caller 7 may not create it for them. */
  method CreateScenario() returns (store: Store)
    ensures fresh(store) && store.Valid()
    ensures store.circles == map[1 := Circle(42, "Run club", "", 20, "2025-01-01", false, false)]
    ensures store.nextId == 2
    ensures store.registrations == [] && store.circleTags == [] && store.flags == []
  {
    store := new Store();
    var req := AddRequest(Some(42), "Run club", "", Some(20), "2025-01-01");
    var status, created := store.AddCircle(7, req);
    assert status == Unauthorized && store.circles == map[];
    status, created := store.AddCircle(42, req);
    assert status == Ok && created == Some(CircleRow(1, Circle(42, "Run club", "", 20, "2025-01-01", false, false)));
  }

  /** The host tags circle 1 with "music" and removes the tag again. */
  method TagScenario() {
    var store := CreateScenario();
    var status := store.ManageTags(7, Put, 1, "music");
    assert status == Unauthorized;
    status := store.ManageTags(42, Put, 1, "music");
    var tags := store.TagsOf(1);
    assert multiset(tags) == multiset{"music"};
    status := store.ManageTags(42, Delete, 1, "music");
    tags := store.TagsOf(1);
    assert "music" !in tags;
  }

  /** Registering and deregistering restores the table; deregistering
      again changes nothing. */
  method RegistrationScenario(store: Store, userId: int, circleId: int)
    requires store.Valid()
    requires Registration(circleId, userId) !in store.registrations
    modifies store
  {
    var before := store.registrations;
    var status := store.ManageRegistration(userId, Put, circleId);
    status := store.ManageRegistration(userId, Delete, circleId);
    AddThenRemove(before, Registration(circleId, userId));
    assert store.registrations == before;
    status := store.ManageRegistration(userId, Delete, circleId);
    RemoveAbsent(before, Registration(circleId, userId));
    assert store.registrations == before;
  }

  /** A member who is not the host may not delete circle 1; an admin may. */
  method DeleteScenario() {
    var store := CreateScenario();
    var status := store.DeleteCircle(7, "member", 1);
    assert status == Unauthorized && 1 in store.circles;
    status := store.DeleteCircle(7, "admin", 1);
    assert status == Ok && 1 !in store.circles;
  }
}
