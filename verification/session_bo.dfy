/**
 * The session scheduler (bo/SessionBo.kt): books sessions, lists them, records
 * attendee responses and cancels a session its requester declines, notifying
 * the other party's devices on every change.
 *
 * The two session tables are the mutable state of the object. The user table
 * and the behaviour of the push gateway are fixed for its lifetime: an endpoint
 * in `disabledEndpoints` is skipped silently, one in `failingEndpoints` makes
 * the send, and with it the whole operation, fail. Every delivered notification
 * is appended to `sent`.
 */
module SessionBusiness {
  import opened Wrappers
  import opened Time
  import opened SessionAttendees
  import opened Entities
  import opened Sessions
  import opened SessionRules
  import opened PushNotificationUtils
  import opened Base64Url
  import opened Utils

  /**
   * The failures the scheduler reports: `SessionTimeConflictException`,
   * `ResourceNotFoundException` and the wrapping `SessionBoException`.
   */
  datatype SessionError = SessionTimeConflict | ResourceNotFound | SessionBoError

  /** The outcome of an operation that returns nothing. */
  datatype Outcome = Done | Failed(error: SessionError)

  datatype Result<T> = Ok(value: T) | Err(error: SessionError)

  /** `UserSession`: a session as shown to one of its attendees. */
  datatype UserSession = UserSession(
    clinicianId: string,
    attendees: seq<SessionAttendee>,
    sessionId: string,
    startDate: ZonedDateTime,
    endDate: ZonedDateTime,
    subject: string,
    isModerated: bool)

  /** `SessionAttendeeDetail`: an attendee's id and display name. */
  datatype SessionAttendeeDetail = SessionAttendeeDetail(id: string, userFriendlyIdentifier: string)

  /** One message handed to the push gateway. */
  datatype Notification = Notification(endpoint: string, title: string, body: string)

  /**
   * The attendee list shows each stored attendee exactly once, as stored.
   */
  ghost predicate ListsAttendees(documents: map<string, SessionAttendeeDocument>, attendees: seq<SessionAttendee>) {
    && |attendees| == |documents|
    && (forall i | 0 <= i < |attendees| ::
          attendees[i].userId in documents && attendees[i] == FromDocument(documents[attendees[i].userId]))
    && (forall k | k in documents :: exists i | 0 <= i < |attendees| :: attendees[i].userId == k)
    && (forall i, j | 0 <= i < j < |attendees| :: attendees[i].userId != attendees[j].userId)
  }

  /**
   * `convertRowToUserSession(row)` produced `s` from the row as the store reads
   * it back: every field copied, the dates converted to UTC, every attendee
   * listed once.
   */
  ghost predicate Projects(row: BookedSessionTableRow, s: UserSession) {
    && s.clinicianId == row.clinicianId
    && s.sessionId == row.id
    && s.startDate == InUtc(row.startDateTime)
    && s.endDate == InUtc(row.endDateTime)
    && s.subject == row.subject
    && s.isModerated == row.isModerated
    && ListsAttendees(row.attendees, s.attendees)
  }

  /** Every attendee document of the row is stored under its own user id. */
  predicate KeyedByUserId(attendees: map<string, SessionAttendeeDocument>) {
    forall k | k in attendees :: attendees[k].userId == k
  }

  /** `convertRowToUserSession(row)`: walks the attendee documents in the map's (unspecified) order. */
  method ToUserSession(row: BookedSessionTableRow) returns (s: UserSession)
    requires KeyedByUserId(row.attendees)
    ensures Projects(row, s)
  {
    var remaining := row.attendees.Keys;
    var attendees: seq<SessionAttendee> := [];
    while remaining != {}
      invariant remaining <= row.attendees.Keys
      invariant |attendees| + |remaining| == |row.attendees|
      invariant forall i | 0 <= i < |attendees| ::
        && attendees[i].userId in row.attendees && attendees[i].userId !in remaining
        && attendees[i] == FromDocument(row.attendees[attendees[i].userId])
      invariant forall k | k in row.attendees && k !in remaining :: exists i | 0 <= i < |attendees| :: attendees[i].userId == k
      invariant forall i, j | 0 <= i < j < |attendees| :: attendees[i].userId != attendees[j].userId
      decreases |remaining|
    {
      var k :| k in remaining;
      var previous := attendees;
      attendees := attendees + [FromDocument(row.attendees[k])];
      forall k' | k' in row.attendees && k' !in remaining - {k}
        ensures exists i | 0 <= i < |attendees| :: attendees[i].userId == k'
      {
        if k' == k {
          assert attendees[|attendees| - 1].userId == k';
        } else {
          var i :| 0 <= i < |previous| && previous[i].userId == k';
          assert attendees[i].userId == k';
        }
      }
      remaining := remaining - {k};
    }
    s := UserSession(row.clinicianId, attendees, row.id, InUtc(row.startDateTime), InUtc(row.endDateTime), row.subject, row.isModerated);
  }

  /**
   * After loading part of `ids * table.Keys` (all but `remaining`): `listed`
   * holds the ids loaded so far, once each.
   */
  ghost predicate LoadedIds(table: SessionTable, ids: set<string>, remaining: set<string>, listed: seq<string>) {
    && remaining <= ids * table.Keys
    && (forall i | 0 <= i < |listed| :: listed[i] in ids && listed[i] in table && listed[i] !in remaining)
    && (forall id | id in ids && id in table && id !in remaining :: id in listed)
    && (forall i, j | 0 <= i < j < |listed| :: listed[i] != listed[j])
  }

  /** `sessions` are the projections of the rows stored under `listed`, in the same order. */
  ghost predicate ProjectsRows(table: SessionTable, listed: seq<string>, sessions: seq<UserSession>) {
    && |listed| == |sessions|
    && (forall i | 0 <= i < |sessions| ::
          listed[i] in table && sessions[i].sessionId == listed[i] && Projects(table[listed[i]], sessions[i]))
  }

  /** Loading one more id keeps `LoadedIds`. */
  lemma LoadStepIds(table: SessionTable, ids: set<string>, remaining: set<string>, listed: seq<string>, id: string)
    requires LoadedIds(table, ids, remaining, listed)
    requires id in remaining
    ensures LoadedIds(table, ids, remaining - {id}, listed + [id])
  {
  }

  /** Projecting one more row keeps `ProjectsRows`. */
  lemma ProjectStep(table: SessionTable, listed: seq<string>, sessions: seq<UserSession>, id: string, s: UserSession)
    requires ProjectsRows(table, listed, sessions)
    requires id in table && s.sessionId == id && Projects(table[id], s)
    ensures ProjectsRows(table, listed + [id], sessions + [s])
  {
  }

  /** Every stored session among `ids` is shown once, as its attendees see it, and nothing else is. */
  ghost predicate ShowsSessions(table: SessionTable, ids: set<string>, sessions: seq<UserSession>) {
    && (forall i | 0 <= i < |sessions| ::
          && sessions[i].sessionId in ids && sessions[i].sessionId in table
          && Projects(table[sessions[i].sessionId], sessions[i]))
    && (forall id | id in ids && id in table :: exists i | 0 <= i < |sessions| :: sessions[i].sessionId == id)
    && (forall i, j | 0 <= i < j < |sessions| :: sessions[i].sessionId != sessions[j].sessionId)
  }

  /** Once every id is loaded, the projections show exactly the stored sessions among the ids. */
  lemma LoadedAll(table: SessionTable, ids: set<string>, listed: seq<string>, sessions: seq<UserSession>)
    requires LoadedIds(table, ids, {}, listed)
    requires ProjectsRows(table, listed, sessions)
    ensures ShowsSessions(table, ids, sessions)
  {
    forall id | id in ids && id in table
      ensures exists i | 0 <= i < |sessions| :: sessions[i].sessionId == id
    {
      var i :| 0 <= i < |listed| && listed[i] == id;
      assert sessions[i].sessionId == id;
    }
  }

  /**
   * `sessionDao.batchLoad(ids)` followed by `convertRowToUserSession` on each
   * row found: every stored session among the ids once, in no particular order.
   */
  method LoadSessions(table: SessionTable, ids: set<string>) returns (sessions: seq<UserSession>)
    requires forall id | id in table :: table[id].id == id && KeyedByUserId(table[id].attendees)
    ensures ShowsSessions(table, ids, sessions)
  {
    var remaining := ids * table.Keys;
    sessions := [];
    ghost var listed: seq<string> := [];
    while remaining != {}
      invariant LoadedIds(table, ids, remaining, listed)
      invariant ProjectsRows(table, listed, sessions)
      decreases |remaining|
    {
      var id :| id in remaining;
      var s := ToUserSession(table[id]);
      LoadStepIds(table, ids, remaining, listed, id);
      ProjectStep(table, listed, sessions, id, s);
      sessions := sessions + [s];
      listed := listed + [id];
      remaining := remaining - {id};
    }
    LoadedAll(table, ids, listed, sessions);
  }

  /**
   * The details list names each of `ids` that has a user row exactly once, with
   * that row's display name, and nobody else.
   */
  ghost predicate DescribesAttendees(
    userCommons: map<string, UserCommonTableRow>, ids: set<string>, details: seq<SessionAttendeeDetail>)
  {
    && (forall i | 0 <= i < |details| ::
          && details[i].id in ids && details[i].id in userCommons
          && details[i].userFriendlyIdentifier == userCommons[details[i].id].userFriendlyIdentifier)
    && (forall u | u in ids && u in userCommons :: exists i | 0 <= i < |details| :: details[i].id == u)
    && (forall i, j | 0 <= i < j < |details| :: details[i].id != details[j].id)
  }

  /** After describing all of `ids * userCommons.Keys` but `remaining`, listed in `listed`. */
  ghost predicate DescribedSoFar(
    userCommons: map<string, UserCommonTableRow>, ids: set<string>, remaining: set<string>,
    details: seq<SessionAttendeeDetail>, listed: seq<string>)
  {
    && remaining <= ids * userCommons.Keys
    && |listed| == |details|
    && (forall i | 0 <= i < |details| ::
          && details[i].id == listed[i] && listed[i] in ids && listed[i] in userCommons && listed[i] !in remaining
          && details[i].userFriendlyIdentifier == userCommons[listed[i]].userFriendlyIdentifier)
    && (forall u | u in ids && u in userCommons && u !in remaining :: u in listed)
    && (forall i, j | 0 <= i < j < |listed| :: listed[i] != listed[j])
  }

  /** Describing one more attendee keeps `DescribedSoFar`. */
  lemma DescribeStep(
    userCommons: map<string, UserCommonTableRow>, ids: set<string>, remaining: set<string>,
    details: seq<SessionAttendeeDetail>, listed: seq<string>, u: string)
    requires DescribedSoFar(userCommons, ids, remaining, details, listed)
    requires u in remaining && userCommons[u].id == u
    ensures DescribedSoFar(userCommons, ids, remaining - {u},
      details + [SessionAttendeeDetail(userCommons[u].id, userCommons[u].userFriendlyIdentifier)], listed + [u])
  {
  }

  /** At the end of the walk every described id is listed, hence described. */
  lemma DescribedAll(
    userCommons: map<string, UserCommonTableRow>, ids: set<string>,
    details: seq<SessionAttendeeDetail>, listed: seq<string>)
    requires DescribedSoFar(userCommons, ids, {}, details, listed)
    ensures DescribesAttendees(userCommons, ids, details)
  {
    forall u | u in ids && u in userCommons
      ensures exists i | 0 <= i < |details| :: details[i].id == u
    {
      assert u in listed;
      var i :| 0 <= i < |listed| && listed[i] == u;
      assert details[i].id == u;
    }
  }

  /**
   * `userCommonDao.batchLoad(ids)` mapped to (id, display name): one detail per
   * id that has a user row, in no particular order.
   */
  method LoadDetails(userCommons: map<string, UserCommonTableRow>, ids: set<string>)
    returns (details: seq<SessionAttendeeDetail>)
    requires forall u | u in userCommons :: userCommons[u].id == u
    ensures DescribesAttendees(userCommons, ids, details)
  {
    var remaining := ids * userCommons.Keys;
    details := [];
    ghost var listed: seq<string> := [];
    while remaining != {}
      invariant DescribedSoFar(userCommons, ids, remaining, details, listed)
      decreases |remaining|
    {
      var u :| u in remaining;
      var config := userCommons[u];
      DescribeStep(userCommons, ids, remaining, details, listed, u);
      details := details + [SessionAttendeeDetail(config.id, config.userFriendlyIdentifier)];
      listed := listed + [u];
      remaining := remaining - {u};
    }
    DescribedAll(userCommons, ids, details, listed);
  }

  class SessionBo {
    var sessionTable: SessionTable
    var associationTable: AssociationTable
    const userCommonTable: map<string, UserCommonTableRow>
    const disabledEndpoints: set<string>
    const failingEndpoints: set<string>
    var sent: seq<Notification>

    /** Every row is stored under its own key, and every attendee under their own id. */
    ghost predicate Valid()
      reads this
    {
      && (forall id | id in sessionTable :: sessionTable[id].id == id)
      && (forall id | id in sessionTable :: KeyedByUserId(sessionTable[id].attendees))
      && KeyedAssociations(associationTable)
      && (forall u | u in userCommonTable :: userCommonTable[u].id == u)
    }

    /**
     * The two tables agree, and no clinician is double-booked on one date;
     * every operation keeps this.
     */
    ghost predicate Consistent()
      reads this
    {
      AssociationsConsistent(sessionTable, associationTable) && NoSameDayDoubleBooking(sessionTable)
    }

    constructor (
      sessions: SessionTable, associations: AssociationTable, userCommons: map<string, UserCommonTableRow>,
      disabled: set<string>, failing: set<string>)
      requires forall id | id in sessions :: sessions[id].id == id && KeyedByUserId(sessions[id].attendees)
      requires KeyedAssociations(associations)
      requires forall u | u in userCommons :: userCommons[u].id == u
      ensures Valid()
      ensures sessionTable == sessions && associationTable == associations && userCommonTable == userCommons
      ensures disabledEndpoints == disabled && failingEndpoints == failing && sent == []
    {
      sessionTable := sessions;
      associationTable := associations;
      userCommonTable := userCommons;
      disabledEndpoints := disabled;
      failingEndpoints := failing;
      sent := [];
    }

    // -------------------------------------------------------------------------
    // Notifications
    // -------------------------------------------------------------------------

    /** The device endpoints of those of `users` that have a user row. */
    ghost function Endpoints(users: set<string>): set<string> {
      set u, j | u in users && u in userCommonTable && 0 <= j < |userCommonTable[u].gcmConfigs| ::
        userCommonTable[u].gcmConfigs[j].gcmDeviceSnsEndpoint
    }

    /** Some endpoint of the users is neither disabled nor accepted by the gateway. */
    ghost predicate HasFailingEndpoint(users: set<string>) {
      exists u, j | u in users && u in userCommonTable && 0 <= j < |userCommonTable[u].gcmConfigs| ::
        var e := userCommonTable[u].gcmConfigs[j].gcmDeviceSnsEndpoint;
        e !in disabledEndpoints && e in failingEndpoints
    }

    /**
     * `after` extends `before` only with the given message, sent to endpoints of
     * the users that are neither disabled nor failing.
     */
    ghost predicate FanOut(before: seq<Notification>, after: seq<Notification>, users: set<string>, title: string, body: string) {
      && before <= after
      && forall i | |before| <= i < |after| ::
        && after[i].title == title && after[i].body == body
        && after[i].endpoint in Endpoints(users)
        && after[i].endpoint !in disabledEndpoints && after[i].endpoint !in failingEndpoints
    }

    /** Every endpoint of the users that is not disabled received the message after `before`. */
    ghost predicate Delivered(before: seq<Notification>, after: seq<Notification>, users: set<string>, title: string, body: string) {
      && |before| <= |after|
      && forall u, j | u in users && u in userCommonTable && 0 <= j < |userCommonTable[u].gcmConfigs|
          && userCommonTable[u].gcmConfigs[j].gcmDeviceSnsEndpoint !in disabledEndpoints ::
        Notification(userCommonTable[u].gcmConfigs[j].gcmDeviceSnsEndpoint, title, body) in after[|before|..]
    }

    /**
     * `sendPushNotificationToUsers(userIds, ...)`: for every user that has a user
     * row, in no particular order, send the message to each of the user's device
     * endpoints in turn. A disabled endpoint is skipped; a failing one stops the
     * walk. It succeeds exactly when no endpoint of the users fails, and then
     * every endpoint that is not disabled got the message.
     */
    method SendPushNotificationToUsers(userIds: set<string>, title: string, body: string) returns (ok: bool)
      modifies this`sent
      ensures FanOut(old(sent), sent, userIds, title, body)
      ensures ok <==> !HasFailingEndpoint(userIds)
      ensures ok ==> Delivered(old(sent), sent, userIds, title, body)
    {
      var users := userIds * userCommonTable.Keys;
      ghost var done: set<string> := {};
      while users != {}
        invariant users <= userIds * userCommonTable.Keys
        invariant done == userIds * userCommonTable.Keys - users
        invariant FanOut(old(sent), sent, userIds, title, body)
        invariant Delivered(old(sent), sent, done, title, body)
        invariant !HasFailingEndpoint(done)
        decreases |users|
      {
        var u :| u in users;
        var configs := userCommonTable[u].gcmConfigs;
        var j := 0;
        while j < |configs|
          invariant 0 <= j <= |configs|
          invariant FanOut(old(sent), sent, userIds, title, body)
          invariant Delivered(old(sent), sent, done, title, body)
          invariant forall j' | 0 <= j' < j && configs[j'].gcmDeviceSnsEndpoint !in disabledEndpoints ::
            Notification(configs[j'].gcmDeviceSnsEndpoint, title, body) in sent[|old(sent)|..]
          invariant forall j' | 0 <= j' < j :: configs[j'].gcmDeviceSnsEndpoint in disabledEndpoints || configs[j'].gcmDeviceSnsEndpoint !in failingEndpoints
        {
          var endpoint := configs[j].gcmDeviceSnsEndpoint;
          if endpoint in disabledEndpoints {
            // the gateway reports a disabled endpoint, which is ignored
          } else if endpoint in failingEndpoints {
            assert u in userIds;
            return false;
          } else {
            assert endpoint in Endpoints(userIds);
            ghost var before := sent;
            sent := sent + [Notification(endpoint, title, body)];
            assert sent[|old(sent)|..] == before[|old(sent)|..] + [Notification(endpoint, title, body)];
          }
          j := j + 1;
        }
        users := users - {u};
        done := done + {u};
      }
      ok := true;
    }

    // -------------------------------------------------------------------------
    // Booking
    // -------------------------------------------------------------------------

    /**
     * `createSessions(session, requesterUserId)`, where the secure random source
     * produced `randomBytes` for the room id and the start time reads as
     * `readableDate`. A conflict is reported before anything is written; a
     * requester who is not an attendee fails before anything is written;
     * otherwise the session row (requester ACCEPTED) and its association rows are
     * written and every other attendee is notified. A failed notification is
     * reported as a scheduler error but the rows stay written.
     */
    method CreateSessions(session: Session, requesterUserId: string, randomBytes: seq<byte>, readableDate: string)
      returns (outcome: Outcome)
      requires Valid()
      requires |randomBytes| == DefaultSecureIdLength
      modifies this
      ensures Valid()
      ensures ConflictExists(old(sessionTable), session) ==>
        outcome == Failed(SessionTimeConflict) && unchanged(this)
      ensures !ConflictExists(old(sessionTable), session) && requesterUserId !in UserIds(session.attendees) ==>
        outcome == Failed(SessionBoError) && unchanged(this)
      ensures !ConflictExists(old(sessionTable), session) && requesterUserId in UserIds(session.attendees) ==>
        var roomId := CreateSecureId(randomBytes);
        var targets := UserIds(session.attendees) - {requesterUserId};
        var body := NewSessionCreationBody(readableDate);
        && sessionTable == old(sessionTable)[roomId := CreatedRow(session, roomId, requesterUserId)]
        && associationTable == SaveAll(old(associationTable), ToSessionAssociationEntities(session, roomId))
        && FanOut(old(sent), sent, targets, session.subject, body)
        && (outcome == Done <==> !HasFailingEndpoint(targets))
        && (outcome == Done ==> Delivered(old(sent), sent, targets, session.subject, body))
        && (outcome != Done ==> outcome == Failed(SessionBoError))
      ensures old(NoSameDayDoubleBooking(sessionTable)) ==> NoSameDayDoubleBooking(sessionTable)
      ensures old(Consistent()) && CreateSecureId(randomBytes) !in old(sessionTable) ==> Consistent()
    {
      if ConflictExists(sessionTable, session) {
        return Failed(SessionTimeConflict);
      }
      if requesterUserId !in UserIds(session.attendees) {
        // the requester's attendee entry is missing: the lookup fails
        return Failed(SessionBoError);
      }
      var roomId := CreateSecureId(randomBytes);
      StoreBooking(session, roomId, requesterUserId);
      var ok := SendPushNotificationToUsers(
        UserIds(session.attendees) - {requesterUserId}, session.subject, NewSessionCreationBody(readableDate));
      outcome := if ok then Done else Failed(SessionBoError);
    }

    /**
     * The writes of a booking: the session row under the room id and the batch
     * of association rows.
     */
    method StoreBooking(session: Session, roomId: string, requesterUserId: string)
      requires Valid()
      requires !ConflictExists(sessionTable, session)
      requires requesterUserId in UserIds(session.attendees)
      modifies this`sessionTable, this`associationTable
      ensures Valid()
      ensures sessionTable == old(sessionTable)[roomId := CreatedRow(session, roomId, requesterUserId)]
      ensures associationTable == SaveAll(old(associationTable), ToSessionAssociationEntities(session, roomId))
      ensures old(NoSameDayDoubleBooking(sessionTable)) ==> NoSameDayDoubleBooking(sessionTable)
      ensures old(Consistent()) && roomId !in old(sessionTable) ==> Consistent()
    {
      var row := CreatedRow(session, roomId, requesterUserId);
      var associationRows := ToSessionAssociationEntities(session, roomId);
      var sessions := sessionTable[roomId := row];
      var associations := SaveAll(associationTable, associationRows);
      assert KeyedAssociations(associations) by {
        SaveAllEffect(associationTable, associationRows);
      }
      assert forall id | id in sessions :: sessions[id].id == id && KeyedByUserId(sessions[id].attendees) by {
        CreatedRowShape(session, roomId, requesterUserId);
      }
      assert NoSameDayDoubleBooking(sessionTable) ==> NoSameDayDoubleBooking(sessions) by {
        if NoSameDayDoubleBooking(sessionTable) {
          CreatedRowShape(session, roomId, requesterUserId);
          StoringUnconflictedKeepsNoDoubleBooking(sessionTable, session, roomId, row);
        }
      }
      assert AssociationsConsistent(sessionTable, associationTable) && roomId !in sessionTable ==>
          AssociationsConsistent(sessions, associations) by {
        if AssociationsConsistent(sessionTable, associationTable) && roomId !in sessionTable {
          BookingKeepsConsistency(sessionTable, associationTable, session, roomId, requesterUserId);
        }
      }
      sessionTable := sessions;
      associationTable := associations;
    }

    // -------------------------------------------------------------------------
    // Reading
    // -------------------------------------------------------------------------

    /** The session ids of the association rows of a user (the query on hash key `id`). */
    function SessionIdsOf(userId: string): set<string>
      reads this
    {
      set k | k in associationTable && associationTable[k].id == userId :: associationTable[k].sortKey
    }

    /**
     * `getSessions(userId)`: every session the user has an association row for
     * and that is still stored, once each, as the user sees it.
     */
    method GetSessions(userId: string) returns (sessions: seq<UserSession>)
      requires Valid()
      ensures forall i | 0 <= i < |sessions| ::
        && sessions[i].sessionId in SessionIdsOf(userId) && sessions[i].sessionId in sessionTable
        && Projects(sessionTable[sessions[i].sessionId], sessions[i])
      ensures forall id | id in SessionIdsOf(userId) && id in sessionTable ::
        exists i | 0 <= i < |sessions| :: sessions[i].sessionId == id
      ensures forall i, j | 0 <= i < j < |sessions| :: sessions[i].sessionId != sessions[j].sessionId
    {
      sessions := LoadSessions(sessionTable, SessionIdsOf(userId));
    }

    /** The user has an association row for the session and the session row exists. */
    predicate IsVisibleTo(userId: string, sessionId: string)
      reads this
    {
      (userId, sessionId) in associationTable && sessionId in sessionTable
    }

    /**
     * `getSession(userId, sessionId)`: the session as the user sees it; not found
     * when the user has no association row for it or the row is gone.
     */
    method GetSession(userId: string, sessionId: string) returns (r: Result<UserSession>)
      requires Valid()
      ensures r.Err? <==> !IsVisibleTo(userId, sessionId)
      ensures r.Err? ==> r.error == ResourceNotFound
      ensures r.Ok? ==> Projects(sessionTable[sessionId], r.value) && r.value.sessionId == sessionId
    {
      if !IsVisibleTo(userId, sessionId) {
        return Err(ResourceNotFound);
      }
      var s := ToUserSession(sessionTable[sessionId]);
      r := Ok(s);
    }

    /**
     * `getAttendeeDetails(sessionId)`: the id and display name of every attendee
     * that has a user row; not found when the session row is missing.
     */
    method GetAttendeeDetails(sessionId: string) returns (r: Result<seq<SessionAttendeeDetail>>)
      requires Valid()
      ensures r.Err? <==> sessionId !in sessionTable
      ensures r.Err? ==> r.error == ResourceNotFound
      ensures r.Ok? ==> DescribesAttendees(userCommonTable, sessionTable[sessionId].attendees.Keys, r.value)
    {
      if sessionId !in sessionTable {
        return Err(ResourceNotFound);
      }
      var details := LoadDetails(userCommonTable, sessionTable[sessionId].attendees.Keys);
      r := Ok(details);
    }

    // -------------------------------------------------------------------------
    // Attendee responses and cancellation
    // -------------------------------------------------------------------------

    /** The user has an association row for the session, the row exists and lists the user. */
    predicate IsAttendeeOf(userId: string, sessionId: string)
      reads this
    {
      IsVisibleTo(userId, sessionId) && userId in sessionTable[sessionId].attendees
    }

    /**
     * `cancelSession(sessionId)`: deletes the session row and the association
     * rows of all its attendees.
     */
    method CancelSession(sessionId: string) returns (outcome: Outcome)
      requires Valid()
      modifies this`sessionTable, this`associationTable
      ensures Valid()
      ensures old(sessionId !in sessionTable) ==> outcome == Failed(ResourceNotFound) && unchanged(this)
      ensures old(sessionId in sessionTable) ==>
        && outcome == Done
        && sessionTable == old(sessionTable) - {sessionId}
        && associationTable == old(associationTable) - CancelledKeys(old(sessionTable)[sessionId], sessionId)
      ensures old(Consistent()) ==> Consistent() && forall k | k in associationTable :: k.1 != sessionId
    {
      if sessionId !in sessionTable {
        return Failed(ResourceNotFound);
      }
      var keys := CancelledKeys(sessionTable[sessionId], sessionId);
      if Consistent() {
        CancellationKeepsConsistency(sessionTable, associationTable, sessionId);
      }
      sessionTable := sessionTable - {sessionId};
      associationTable := associationTable - keys;
      outcome := Done;
    }

    /** The write of an attendee update: the session row with that attendee's entry replaced. */
    method RecordAttendee(sessionId: string, updatedAttendee: SessionAttendee)
      requires Valid()
      requires IsAttendeeOf(updatedAttendee.userId, sessionId)
      modifies this`sessionTable
      ensures Valid()
      ensures sessionTable == old(sessionTable)[sessionId := UpdatedRow(old(sessionTable)[sessionId], updatedAttendee)]
      ensures sessionTable.Keys == old(sessionTable).Keys
      ensures old(Consistent()) ==> Consistent()
    {
      var before := sessionTable[sessionId];
      var row := UpdatedRow(before, updatedAttendee);
      UpdatedRowShape(before, updatedAttendee);
      if Consistent() {
        RowUpdateKeepsConsistency(sessionTable, associationTable, sessionId, row);
        RowUpdateKeepsNoDoubleBooking(sessionTable, sessionId, row);
      }
      sessionTable := sessionTable[sessionId := row];
    }

    /**
     * `updateAttendee(sessionId, updatedAttendee)`: records an attendee's new
     * status and note, notifies the other side (all other attendees when the
     * requester acts, the requester otherwise) and, when the requester declines,
     * cancels the session once the notifications are out.
     */
    method UpdateAttendee(sessionId: string, updatedAttendee: SessionAttendee) returns (outcome: Outcome)
      requires Valid()
      modifies this
      ensures Valid()
      ensures !old(IsAttendeeOf(updatedAttendee.userId, sessionId)) ==>
        outcome == Failed(ResourceNotFound) && unchanged(this)
      ensures old(IsAttendeeOf(updatedAttendee.userId, sessionId)) && updatedAttendee.userId !in userCommonTable ==>
        && outcome == Failed(SessionBoError)
        && sessionTable == old(sessionTable)[sessionId := UpdatedRow(old(sessionTable)[sessionId], updatedAttendee)]
        && associationTable == old(associationTable) && sent == old(sent)
      ensures old(IsAttendeeOf(updatedAttendee.userId, sessionId)) && updatedAttendee.userId in userCommonTable ==>
        var row := UpdatedRow(old(sessionTable)[sessionId], updatedAttendee);
        var targets := AttendeeUpdateTargets(row, updatedAttendee.userId);
        var title := UpdatedAttendeeTitle(userCommonTable[updatedAttendee.userId].userFriendlyIdentifier, updatedAttendee.status);
        var body := updatedAttendee.note.GetOr(NoReasonGiven);
        && FanOut(old(sent), sent, targets, title, body)
        && (HasFailingEndpoint(targets) ==>
              && outcome == Failed(SessionBoError)
              && sessionTable == old(sessionTable)[sessionId := row]
              && associationTable == old(associationTable))
        && (!HasFailingEndpoint(targets) ==>
              && outcome == Done
              && Delivered(old(sent), sent, targets, title, body)
              && (IsCancellation(row, updatedAttendee) ==>
                    && sessionTable == old(sessionTable) - {sessionId}
                    && associationTable == old(associationTable) - CancelledKeys(row, sessionId))
              && (!IsCancellation(row, updatedAttendee) ==>
                    && sessionTable == old(sessionTable)[sessionId := row]
                    && associationTable == old(associationTable)))
      ensures old(sessionId in sessionTable) && sessionId !in sessionTable <==>
        && old(IsAttendeeOf(updatedAttendee.userId, sessionId))
        && outcome == Done
        && IsCancellation(old(sessionTable)[sessionId], updatedAttendee)
      ensures old(Consistent()) ==> Consistent()
    {
      var userId := updatedAttendee.userId;
      if !IsAttendeeOf(userId, sessionId) {
        return Failed(ResourceNotFound);
      }
      var row := UpdatedRow(sessionTable[sessionId], updatedAttendee);
      RecordAttendee(sessionId, updatedAttendee);
      if userId !in userCommonTable {
        // the lookup of the attendee's own user row finds nothing
        return Failed(SessionBoError);
      }
      var detail := userCommonTable[userId];
      var targets := AttendeeUpdateTargets(row, userId);
      var title := UpdatedAttendeeTitle(detail.userFriendlyIdentifier, updatedAttendee.status);
      var body := updatedAttendee.note.GetOr(NoReasonGiven);
      var ok := SendPushNotificationToUsers(targets, title, body);
      if !ok {
        return Failed(SessionBoError);
      }
      if IsCancellation(row, updatedAttendee) {
        outcome := CancelSession(sessionId);
      } else {
        outcome := Done;
      }
    }
  }
}
