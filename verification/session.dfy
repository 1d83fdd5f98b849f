/**
 * A requested session and its two stored forms (model/Session.kt): the session
 * row, whose attendees are keyed by user id, and one association row per attendee.
 */
module Sessions {
  import opened Wrappers
  import opened Time
  import opened SessionAttendees
  import opened Entities

  /** `Session`: the clinician, the attendees (clients and clinician), the window, subject and flag. */
  datatype Session = Session(
    clinicianId: string,
    attendees: seq<SessionAttendee>,
    startDateTime: ZonedDateTime,
    endDateTime: ZonedDateTime,
    subject: string,
    isModerated: bool)

  /** `CreateSessionRequest`, as received from the client. */
  datatype CreateSessionRequest = CreateSessionRequest(
    clinicianId: string,
    clientIds: seq<string>,
    startDateTime: ZonedDateTime,
    endDateTime: ZonedDateTime,
    subject: string,
    isModerated: bool)

  /** The user ids of a list of attendees. */
  function UserIds(attendees: seq<SessionAttendee>): set<string> {
    set a | a in attendees :: a.userId
  }

  /**
   * `attendees.map(toEntity).map { it.userId to it }.toMap()`: the documents keyed
   * by user id; for a repeated user id the later attendee wins, as in `toMap`.
   */
  function AttendeeDocuments(attendees: seq<SessionAttendee>): map<string, SessionAttendeeDocument>
    decreases |attendees|
  {
    if |attendees| == 0 then map[]
    else
      var last := attendees[|attendees| - 1];
      AttendeeDocuments(attendees[..|attendees| - 1])[last.userId := ToEntity(last)]
  }

  /** The attendee map holds one key per distinct user id, and each value carries its own key. */
  lemma {:induction false} AttendeeDocumentsKeyed(attendees: seq<SessionAttendee>)
    ensures AttendeeDocuments(attendees).Keys == UserIds(attendees)
    ensures forall k | k in AttendeeDocuments(attendees) :: AttendeeDocuments(attendees)[k].userId == k
    decreases |attendees|
  {
    if |attendees| > 0 {
      var init := attendees[..|attendees| - 1];
      AttendeeDocumentsKeyed(init);
      assert attendees == init + [attendees[|attendees| - 1]];
      assert UserIds(attendees) == UserIds(init) + {attendees[|attendees| - 1].userId};
    }
  }

  /** The value stored under a user id is that of the last attendee with that id. */
  lemma {:induction false} AttendeeDocumentsLastWins(attendees: seq<SessionAttendee>, i: nat)
    requires i < |attendees|
    requires forall j | i < j < |attendees| :: attendees[j].userId != attendees[i].userId
    ensures attendees[i].userId in AttendeeDocuments(attendees)
    ensures AttendeeDocuments(attendees)[attendees[i].userId] == ToEntity(attendees[i])
    decreases |attendees|
  {
    if i < |attendees| - 1 {
      AttendeeDocumentsLastWins(attendees[..|attendees| - 1], i);
    }
  }

  /** `session.toSessionEntity(sessionId, requesterUserId)`. */
  function ToSessionEntity(session: Session, sessionId: string, requesterUserId: string): BookedSessionTableRow {
    BookedSessionTableRow(
      sessionId,
      session.clinicianId,
      LocalDate(session.startDateTime),
      session.startDateTime,
      session.endDateTime,
      session.subject,
      AttendeeDocuments(session.attendees),
      requesterUserId,
      session.isModerated)
  }

  /**
   * The session row is keyed by the given id, dated by the local date of its start,
   * stores the requester unchanged, and keys its attendees by their user ids;
   * with distinct user ids every attendee is stored as it came in.
   */
  lemma ToSessionEntityShape(session: Session, sessionId: string, requesterUserId: string)
    ensures var row := ToSessionEntity(session, sessionId, requesterUserId);
      && row.id == sessionId
      && row.requesterUserId == requesterUserId
      && row.clinicianId == session.clinicianId
      && row.sessionDate == LocalDate(session.startDateTime)
      && row.attendees.Keys == UserIds(session.attendees)
      && (forall k | k in row.attendees :: row.attendees[k].userId == k)
    ensures (forall i, j | 0 <= i < j < |session.attendees| :: session.attendees[i].userId != session.attendees[j].userId) ==>
      forall i | 0 <= i < |session.attendees| ::
        ToSessionEntity(session, sessionId, requesterUserId).attendees[session.attendees[i].userId] == ToEntity(session.attendees[i])
  {
    AttendeeDocumentsKeyed(session.attendees);
    if forall i, j | 0 <= i < j < |session.attendees| :: session.attendees[i].userId != session.attendees[j].userId {
      forall i | 0 <= i < |session.attendees|
        ensures AttendeeDocuments(session.attendees)[session.attendees[i].userId] == ToEntity(session.attendees[i])
      {
        AttendeeDocumentsLastWins(session.attendees, i);
      }
    }
  }

  /** The time-to-live of the association rows: the end time plus one week, in epoch seconds. */
  function AssociationTtl(session: Session): (ttl: int)
    ensures ttl > session.endDateTime.epochSecond
  {
    PlusOneWeekEpochSecond(session.endDateTime)
  }

  /** `session.toSessionAssociationEntities(sessionId)`: one row per attendee, in attendee order. */
  function ToSessionAssociationEntities(session: Session, sessionId: string): seq<BookedSessionAssociationTableRow> {
    seq(|session.attendees|, i requires 0 <= i < |session.attendees| =>
      BookedSessionAssociationTableRow(
        session.attendees[i].userId, sessionId, AssociationTtl(session),
        session.startDateTime, session.endDateTime))
  }

  /**
   * Exactly one association row per attendee, in order, keyed (attendee, session);
   * every row carries the session's start and end, and all share one ttl, a week
   * after the end, so later than the end.
   */
  lemma AssociationRowsShape(session: Session, sessionId: string)
    ensures var rows := ToSessionAssociationEntities(session, sessionId);
      && |rows| == |session.attendees|
      && (forall i | 0 <= i < |rows| ::
            && rows[i].id == session.attendees[i].userId
            && rows[i].sortKey == sessionId
            && rows[i].startDateTime == session.startDateTime
            && rows[i].endDateTime == session.endDateTime
            && rows[i].ttl == session.endDateTime.epochSecond + SecondsPerWeek
            && rows[i].ttl > rows[i].endDateTime.epochSecond)
  {
  }

  /**
   * The two record types agree: the (user, session) keys of the association rows
   * are exactly the attendee keys of the session row paired with its id.
   */
  lemma AssociationsMatchSessionRow(session: Session, sessionId: string, requesterUserId: string)
    ensures (set r | r in ToSessionAssociationEntities(session, sessionId) :: (r.id, r.sortKey))
         == (set k | k in ToSessionEntity(session, sessionId, requesterUserId).attendees :: (k, sessionId))
  {
    var rows := ToSessionAssociationEntities(session, sessionId);
    var keys := ToSessionEntity(session, sessionId, requesterUserId).attendees.Keys;
    AttendeeDocumentsKeyed(session.attendees);
    forall k | k in keys
      ensures (k, sessionId) in (set r | r in rows :: (r.id, r.sortKey))
    {
      var a :| a in session.attendees && a.userId == k;
      var i :| 0 <= i < |session.attendees| && session.attendees[i] == a;
      assert rows[i] in rows;
    }
  }

  /** `Session.Mapper.from(request)`. */
  function FromRequest(request: CreateSessionRequest): Session {
    var userIds := request.clientIds + [request.clinicianId];
    Session(
      request.clinicianId,
      seq(|userIds|, i requires 0 <= i < |userIds| => FromUserId(userIds[i])),
      request.startDateTime,
      request.endDateTime,
      request.subject,
      request.isModerated)
  }

  /**
   * The attendees are the clients in order followed by the clinician, so the
   * clinician is always an attendee; every one starts TENTATIVE without a note.
   */
  lemma FromRequestAttendees(request: CreateSessionRequest)
    ensures var s := FromRequest(request);
      && s.clinicianId == request.clinicianId
      && |s.attendees| == |request.clientIds| + 1
      && (forall i | 0 <= i < |request.clientIds| :: s.attendees[i].userId == request.clientIds[i])
      && s.attendees[|request.clientIds|].userId == request.clinicianId
      && request.clinicianId in UserIds(s.attendees)
      && (forall a | a in s.attendees :: a.status == TENTATIVE && a.note == None)
  {
    var s := FromRequest(request);
    assert s.attendees[|request.clientIds|] in s.attendees;
  }
}
