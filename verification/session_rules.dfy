/**
 * The booking rules behind bo/SessionBo.kt, stated on the stored tables as
 * values: the overlap test, the same-day conflict query, the rows a new booking
 * writes, the rows a cancellation removes, and the invariants these keep.
 */
module SessionRules {
  import opened Wrappers
  import opened Time
  import opened SessionAttendees
  import opened Entities
  import opened Sessions

  /** The session table, keyed by session (room) id. */
  type SessionTable = map<string, BookedSessionTableRow>

  /** The association table, keyed by (user id, session id). */
  type AssociationTable = map<(string, string), BookedSessionAssociationTableRow>

  // ---------------------------------------------------------------------------
  // Overlap and conflicts
  // ---------------------------------------------------------------------------

  /** `start.isBefore(otherEnd) && end.isAfter(otherStart)`: the two windows overlap. */
  predicate Overlaps(start: ZonedDateTime, end: ZonedDateTime, otherStart: ZonedDateTime, otherEnd: ZonedDateTime) {
    IsBefore(start, otherEnd) && IsAfter(end, otherStart)
  }

  /** An instant (epoch second) inside the half-open window [start, end). */
  predicate Within(t: int, start: ZonedDateTime, end: ZonedDateTime) {
    start.epochSecond <= t < end.epochSecond
  }

  /** The overlap test does not depend on which window is the new one. */
  lemma OverlapsSymmetric(s1: ZonedDateTime, e1: ZonedDateTime, s2: ZonedDateTime, e2: ZonedDateTime)
    ensures Overlaps(s1, e1, s2, e2) <==> Overlaps(s2, e2, s1, e1)
  {
  }

  /**
   * For two non-empty windows the overlap test holds exactly when some instant
   * lies in both: windows that only touch (one ends as the other starts) do not
   * overlap.
   */
  lemma OverlapsIffSharedInstant(s1: ZonedDateTime, e1: ZonedDateTime, s2: ZonedDateTime, e2: ZonedDateTime)
    requires IsBefore(s1, e1) && IsBefore(s2, e2)
    ensures Overlaps(s1, e1, s2, e2) <==> exists t :: Within(t, s1, e1) && Within(t, s2, e2)
  {
    if Overlaps(s1, e1, s2, e2) {
      var t := if s1.epochSecond < s2.epochSecond then s2.epochSecond else s1.epochSecond;
      assert Within(t, s1, e1) && Within(t, s2, e2);
    }
  }

  /**
   * The row the date/clinician index query returns for `session` conflicts when
   * its window overlaps the new one.
   */
  predicate ConflictsWith(row: BookedSessionTableRow, session: Session) {
    && row.sessionDate == LocalDate(session.startDateTime)
    && row.clinicianId == session.clinicianId
    && Overlaps(session.startDateTime, session.endDateTime, row.startDateTime, row.endDateTime)
  }

  /**
   * `doesSessionTimeConflictExist(session)`: some stored session of the same
   * clinician, dated the day the new one starts, overlaps it.
   */
  predicate ConflictExists(sessions: SessionTable, session: Session) {
    exists id | id in sessions :: ConflictsWith(sessions[id], session)
  }

  /**
   * A conflict is exactly a stored session of the same clinician on the same
   * start date that shares an instant with the new (non-empty) session.
   */
  lemma ConflictMeansSharedInstant(sessions: SessionTable, session: Session)
    requires IsBefore(session.startDateTime, session.endDateTime)
    requires forall id | id in sessions :: IsBefore(sessions[id].startDateTime, sessions[id].endDateTime)
    ensures ConflictExists(sessions, session) <==>
      exists id, t | id in sessions ::
        && sessions[id].clinicianId == session.clinicianId
        && sessions[id].sessionDate == LocalDate(session.startDateTime)
        && Within(t, sessions[id].startDateTime, sessions[id].endDateTime)
        && Within(t, session.startDateTime, session.endDateTime)
  {
    if ConflictExists(sessions, session) {
      var id :| id in sessions && ConflictsWith(sessions[id], session);
      var row := sessions[id];
      OverlapsIffSharedInstant(session.startDateTime, session.endDateTime, row.startDateTime, row.endDateTime);
      var t :| Within(t, session.startDateTime, session.endDateTime) && Within(t, row.startDateTime, row.endDateTime);
      assert Within(t, sessions[id].startDateTime, sessions[id].endDateTime);
    }
    if exists id, t | id in sessions ::
        && sessions[id].clinicianId == session.clinicianId
        && sessions[id].sessionDate == LocalDate(session.startDateTime)
        && Within(t, sessions[id].startDateTime, sessions[id].endDateTime)
        && Within(t, session.startDateTime, session.endDateTime)
    {
      var id, t :| id in sessions
        && sessions[id].clinicianId == session.clinicianId
        && sessions[id].sessionDate == LocalDate(session.startDateTime)
        && Within(t, sessions[id].startDateTime, sessions[id].endDateTime)
        && Within(t, session.startDateTime, session.endDateTime);
      var row := sessions[id];
      OverlapsIffSharedInstant(session.startDateTime, session.endDateTime, row.startDateTime, row.endDateTime);
      assert ConflictsWith(sessions[id], session);
    }
  }

  /**
   * The booking scenarios of the service's tests: against a 05:00-05:30 session
   * of the same clinician, 05:15-05:25, 04:30-05:30, 04:30-05:15 and 05:00-05:30
   * conflict, while 05:30-06:00 and 04:30-05:00 (touching it) do not.
   */
  lemma ConflictScenarios()
    ensures var at := (h: int, m: int) => ZonedDateTime(h * 3600 + m * 60, 0);
      var existing := BookedSessionTableRow("s1", "c", 0, at(5, 0), at(5, 30), "subject", map[], "c", false);
      var sessions := map["s1" := existing];
      var session := (s: ZonedDateTime, e: ZonedDateTime) => Session("c", [], s, e, "subject", false);
      && ConflictExists(sessions, session(at(5, 15), at(5, 25)))
      && ConflictExists(sessions, session(at(4, 30), at(5, 30)))
      && ConflictExists(sessions, session(at(4, 30), at(5, 15)))
      && ConflictExists(sessions, session(at(5, 0), at(5, 30)))
      && !ConflictExists(sessions, session(at(5, 30), at(6, 0)))
      && !ConflictExists(sessions, session(at(4, 30), at(5, 0)))
  {
    var at := (h: int, m: int) => ZonedDateTime(h * 3600 + m * 60, 0);
    var existing := BookedSessionTableRow("s1", "c", 0, at(5, 0), at(5, 30), "subject", map[], "c", false);
    var sessions := map["s1" := existing];
    var session := (s: ZonedDateTime, e: ZonedDateTime) => Session("c", [], s, e, "subject", false);
    assert ConflictsWith(sessions["s1"], session(at(5, 15), at(5, 25)));
    assert ConflictsWith(sessions["s1"], session(at(4, 30), at(5, 30)));
    assert ConflictsWith(sessions["s1"], session(at(4, 30), at(5, 15)));
    assert ConflictsWith(sessions["s1"], session(at(5, 0), at(5, 30)));
  }

  /**
   * The conflict query only sees sessions stored under the new session's start
   * date: a session from 23:30 to 00:30 does not block one from 00:00 to 00:15
   * on the next day, although the two overlap.
   */
  lemma MidnightOverlapNotDetected()
    ensures var existing := BookedSessionTableRow("s1", "c", 0,
              ZonedDateTime(SecondsPerDay - 1800, 0), ZonedDateTime(SecondsPerDay + 1800, 0), "subject", map[], "c", false);
      var session := Session("c", [], ZonedDateTime(SecondsPerDay, 0), ZonedDateTime(SecondsPerDay + 900, 0), "subject", false);
      && Overlaps(session.startDateTime, session.endDateTime, existing.startDateTime, existing.endDateTime)
      && !ConflictExists(map["s1" := existing], session)
  {
    assert LocalDate(ZonedDateTime(SecondsPerDay, 0)) == 1;
  }

  /**
   * No clinician is booked twice at overlapping times among the sessions stored
   * under the same date.
   */
  ghost predicate NoSameDayDoubleBooking(sessions: SessionTable) {
    forall a, b | a in sessions && b in sessions && a != b
      && sessions[a].clinicianId == sessions[b].clinicianId
      && sessions[a].sessionDate == sessions[b].sessionDate ::
      !Overlaps(sessions[a].startDateTime, sessions[a].endDateTime, sessions[b].startDateTime, sessions[b].endDateTime)
  }

  /**
   * Storing a session that passed the conflict check, dated and timed as the
   * session itself, keeps the table free of same-day double bookings, whatever
   * id it is stored under.
   */
  lemma StoringUnconflictedKeepsNoDoubleBooking(sessions: SessionTable, session: Session, id: string, row: BookedSessionTableRow)
    requires NoSameDayDoubleBooking(sessions)
    requires !ConflictExists(sessions, session)
    requires row.clinicianId == session.clinicianId && row.sessionDate == LocalDate(session.startDateTime)
    requires row.startDateTime == session.startDateTime && row.endDateTime == session.endDateTime
    ensures NoSameDayDoubleBooking(sessions[id := row])
  {
    var after := sessions[id := row];
    forall a, b | a in after && b in after && a != b
      && after[a].clinicianId == after[b].clinicianId
      && after[a].sessionDate == after[b].sessionDate
      ensures !Overlaps(after[a].startDateTime, after[a].endDateTime, after[b].startDateTime, after[b].endDateTime)
    {
      if a == id {
        assert !ConflictsWith(sessions[b], session);
      } else if b == id {
        assert !ConflictsWith(sessions[a], session);
      }
    }
  }

  // ---------------------------------------------------------------------------
  // The rows of a booking
  // ---------------------------------------------------------------------------

  /**
   * The session row `createSessions` stores: `toSessionEntity(roomId, requester)`
   * with the requester's own attendance set to ACCEPTED.
   */
  function CreatedRow(session: Session, roomId: string, requesterUserId: string): BookedSessionTableRow
    requires requesterUserId in UserIds(session.attendees)
  {
    AttendeeDocumentsKeyed(session.attendees);
    var row := ToSessionEntity(session, roomId, requesterUserId);
    row.(attendees := row.attendees[requesterUserId := row.attendees[requesterUserId].(status := ACCEPTED)])
  }

  /**
   * The stored booking lists every attendee once under their own id, has the
   * requester ACCEPTED with their note kept, and stores every other attendee as
   * the last request entry with that id.
   */
  lemma CreatedRowShape(session: Session, roomId: string, requesterUserId: string)
    requires requesterUserId in UserIds(session.attendees)
    ensures var row := CreatedRow(session, roomId, requesterUserId);
      && row.id == roomId
      && row.requesterUserId == requesterUserId
      && row.clinicianId == session.clinicianId
      && row.sessionDate == LocalDate(session.startDateTime)
      && row.startDateTime == session.startDateTime && row.endDateTime == session.endDateTime
      && row.attendees.Keys == UserIds(session.attendees)
      && (forall k | k in row.attendees :: row.attendees[k].userId == k)
      && row.attendees[requesterUserId].status == ACCEPTED
      && AttendeeDocuments(session.attendees).Keys == row.attendees.Keys
      && row.attendees[requesterUserId].note == AttendeeDocuments(session.attendees)[requesterUserId].note
      && (forall k | k in row.attendees && k != requesterUserId :: row.attendees[k] == AttendeeDocuments(session.attendees)[k])
  {
    AttendeeDocumentsKeyed(session.attendees);
  }

  /**
   * For a session built from a request, the stored booking has the requester
   * ACCEPTED and every other client or clinician TENTATIVE without a note.
   */
  lemma RequestedBookingStatuses(request: CreateSessionRequest, roomId: string, requesterUserId: string)
    requires requesterUserId in UserIds(FromRequest(request).attendees)
    ensures var row := CreatedRow(FromRequest(request), roomId, requesterUserId);
      && request.clinicianId in row.attendees
      && (forall c | c in request.clientIds :: c in row.attendees)
      && row.attendees[requesterUserId].status == ACCEPTED
      && (forall k | k in row.attendees && k != requesterUserId :: row.attendees[k].status == TENTATIVE && row.attendees[k].note == None)
  {
    var session := FromRequest(request);
    FromRequestAttendees(request);
    CreatedRowShape(session, roomId, requesterUserId);
    AttendeeDocumentsKeyed(session.attendees);
    forall c | c in request.clientIds
      ensures c in UserIds(session.attendees)
    {
      var i :| 0 <= i < |request.clientIds| && request.clientIds[i] == c;
      assert session.attendees[i] in session.attendees;
    }
    forall k | k in AttendeeDocuments(session.attendees)
      ensures AttendeeDocuments(session.attendees)[k].status == TENTATIVE
      ensures AttendeeDocuments(session.attendees)[k].note == None
    {
      var i := LastIndexOf(session.attendees, k);
      AttendeeDocumentsLastWins(session.attendees, i);
      assert session.attendees[i] in session.attendees;
    }
  }

  /** The position of the last attendee with the given id. */
  function LastIndexOf(attendees: seq<SessionAttendee>, userId: string): (i: nat)
    requires userId in UserIds(attendees)
    ensures i < |attendees| && attendees[i].userId == userId
    ensures forall j | i < j < |attendees| :: attendees[j].userId != userId
    decreases |attendees|
  {
    var last := attendees[|attendees| - 1];
    if last.userId == userId then |attendees| - 1
    else
      assert UserIds(attendees) == UserIds(attendees[..|attendees| - 1]) + {last.userId} by {
        assert attendees == attendees[..|attendees| - 1] + [last];
      }
      LastIndexOf(attendees[..|attendees| - 1], userId)
  }

  /** `batchSave(rows)`: each row is written under its (id, sortKey) key, later rows last. */
  function SaveAll(table: AssociationTable, rows: seq<BookedSessionAssociationTableRow>): AssociationTable
    decreases |rows|
  {
    if |rows| == 0 then table
    else SaveAll(table[(rows[0].id, rows[0].sortKey) := rows[0]], rows[1..])
  }

  /** Every row of a table is stored under its own key. */
  ghost predicate KeyedAssociations(table: AssociationTable) {
    forall k | k in table :: table[k].id == k.0 && table[k].sortKey == k.1
  }

  /** The (id, sortKey) keys of a batch of rows. */
  function RowKeys(rows: seq<BookedSessionAssociationTableRow>): set<(string, string)> {
    set r | r in rows :: (r.id, r.sortKey)
  }

  /** A batch save adds exactly the keys of the saved rows. */
  lemma {:induction false} SaveAllKeys(table: AssociationTable, rows: seq<BookedSessionAssociationTableRow>)
    ensures SaveAll(table, rows).Keys == table.Keys + RowKeys(rows)
    decreases |rows|
  {
    if |rows| > 0 {
      SaveAllKeys(table[(rows[0].id, rows[0].sortKey) := rows[0]], rows[1..]);
      assert rows == [rows[0]] + rows[1..];
      assert RowKeys(rows) == {(rows[0].id, rows[0].sortKey)} + RowKeys(rows[1..]);
    }
  }

  /** A batch save stores every row under its own key. */
  lemma {:induction false} SaveAllKeyed(table: AssociationTable, rows: seq<BookedSessionAssociationTableRow>)
    requires KeyedAssociations(table)
    ensures KeyedAssociations(SaveAll(table, rows))
    decreases |rows|
  {
    if |rows| > 0 {
      SaveAllKeyed(table[(rows[0].id, rows[0].sortKey) := rows[0]], rows[1..]);
    }
  }

  /** A batch save leaves the rows under other keys as they were. */
  lemma {:induction false} SaveAllKeepsOthers(
    table: AssociationTable, rows: seq<BookedSessionAssociationTableRow>, k: (string, string))
    requires k in table && k !in RowKeys(rows)
    ensures k in SaveAll(table, rows) && SaveAll(table, rows)[k] == table[k]
    decreases |rows|
  {
    if |rows| > 0 {
      assert rows[0] in rows;
      assert forall r | r in rows[1..] :: r in rows;
      SaveAllKeepsOthers(table[(rows[0].id, rows[0].sortKey) := rows[0]], rows[1..], k);
    }
  }

  /**
   * A batch save adds exactly the keys of the saved rows, keeps every row under
   * its own key, and leaves the rows under other keys as they were.
   */
  lemma SaveAllEffect(table: AssociationTable, rows: seq<BookedSessionAssociationTableRow>)
    requires KeyedAssociations(table)
    ensures SaveAll(table, rows).Keys == table.Keys + RowKeys(rows)
    ensures KeyedAssociations(SaveAll(table, rows))
    ensures forall k | k in table && k !in RowKeys(rows) :: SaveAll(table, rows)[k] == table[k]
  {
    SaveAllKeys(table, rows);
    SaveAllKeyed(table, rows);
    forall k | k in table && k !in RowKeys(rows)
      ensures SaveAll(table, rows)[k] == table[k]
    {
      SaveAllKeepsOthers(table, rows, k);
    }
  }

  /** The association keys `cancelSession` deletes: one per attendee of the row. */
  function CancelledKeys(row: BookedSessionTableRow, sessionId: string): set<(string, string)> {
    set k | k in row.attendees :: (k, sessionId)
  }

  // ---------------------------------------------------------------------------
  // Agreement of the two tables
  // ---------------------------------------------------------------------------

  /**
   * Every attendee of a stored session has an association row for it, and every
   * association row names a stored session that lists its user as an attendee.
   */
  ghost predicate AssociationsConsistent(sessions: SessionTable, associations: AssociationTable) {
    && (forall id, u | id in sessions && u in sessions[id].attendees :: (u, id) in associations)
    && (forall k | k in associations :: k.1 in sessions && k.0 in sessions[k.1].attendees)
  }

  /**
   * The association keys a booking writes are exactly the keys a cancellation of
   * that booking deletes: one (attendee, room id) pair per stored attendee.
   */
  lemma BookingAssociationKeys(session: Session, roomId: string, requesterUserId: string)
    requires requesterUserId in UserIds(session.attendees)
    ensures RowKeys(ToSessionAssociationEntities(session, roomId)) == CancelledKeys(CreatedRow(session, roomId, requesterUserId), roomId)
  {
    CreatedRowShape(session, roomId, requesterUserId);
    ToSessionEntityShape(session, roomId, requesterUserId);
    AssociationsMatchSessionRow(session, roomId, requesterUserId);
  }

  /** Storing a new booking under a fresh id, with its association rows, keeps the tables in agreement. */
  lemma BookingKeepsConsistency(
    sessions: SessionTable, associations: AssociationTable,
    session: Session, roomId: string, requesterUserId: string)
    requires AssociationsConsistent(sessions, associations)
    requires KeyedAssociations(associations)
    requires roomId !in sessions
    requires requesterUserId in UserIds(session.attendees)
    ensures AssociationsConsistent(
      sessions[roomId := CreatedRow(session, roomId, requesterUserId)],
      SaveAll(associations, ToSessionAssociationEntities(session, roomId)))
  {
    var row := CreatedRow(session, roomId, requesterUserId);
    var rows := ToSessionAssociationEntities(session, roomId);
    var after := sessions[roomId := row];
    var saved := SaveAll(associations, rows);
    SaveAllEffect(associations, rows);
    BookingAssociationKeys(session, roomId, requesterUserId);
    var added := CancelledKeys(row, roomId);
    assert saved.Keys == associations.Keys + added;
    forall id, u | id in after && u in after[id].attendees
      ensures (u, id) in saved
    {
      if id == roomId {
        assert (u, roomId) in added;
      } else {
        assert (u, id) in associations;
      }
    }
    forall k | k in saved
      ensures k.1 in after && k.0 in after[k.1].attendees
    {
      if k in associations {
        assert k.1 in sessions;
      } else {
        assert k in added;
      }
    }
  }

  /** Replacing a session row by one with the same attendees keeps the tables in agreement. */
  lemma RowUpdateKeepsConsistency(
    sessions: SessionTable, associations: AssociationTable, sessionId: string, row: BookedSessionTableRow)
    requires AssociationsConsistent(sessions, associations)
    requires sessionId in sessions
    requires row.attendees.Keys == sessions[sessionId].attendees.Keys
    ensures AssociationsConsistent(sessions[sessionId := row], associations)
  {
  }

  /**
   * Deleting a session row together with the association rows of its attendees
   * keeps the tables in agreement: no association row is left pointing at it.
   */
  lemma CancellationKeepsConsistency(sessions: SessionTable, associations: AssociationTable, sessionId: string)
    requires AssociationsConsistent(sessions, associations)
    requires sessionId in sessions
    ensures AssociationsConsistent(sessions - {sessionId}, associations - CancelledKeys(sessions[sessionId], sessionId))
    ensures forall k | k in associations - CancelledKeys(sessions[sessionId], sessionId) :: k.1 != sessionId
  {
    var gone := CancelledKeys(sessions[sessionId], sessionId);
    forall k | k in associations && k.1 == sessionId
      ensures k in gone
    {
      assert k.0 in sessions[sessionId].attendees;
    }
  }

  /** Replacing a row by one with the same clinician, date and window keeps the table free of double bookings. */
  lemma RowUpdateKeepsNoDoubleBooking(sessions: SessionTable, sessionId: string, row: BookedSessionTableRow)
    requires NoSameDayDoubleBooking(sessions)
    requires sessionId in sessions
    requires row.clinicianId == sessions[sessionId].clinicianId && row.sessionDate == sessions[sessionId].sessionDate
    requires row.startDateTime == sessions[sessionId].startDateTime && row.endDateTime == sessions[sessionId].endDateTime
    ensures NoSameDayDoubleBooking(sessions[sessionId := row])
  {
    var after := sessions[sessionId := row];
    forall a, b | a in after && b in after && a != b
      && after[a].clinicianId == after[b].clinicianId
      && after[a].sessionDate == after[b].sessionDate
      ensures !Overlaps(after[a].startDateTime, after[a].endDateTime, after[b].startDateTime, after[b].endDateTime)
    {
      assert a in sessions && b in sessions;
    }
  }

  // ---------------------------------------------------------------------------
  // Attendee updates
  // ---------------------------------------------------------------------------

  /** The row after `row.attendees[userId] = updatedAttendee.toEntity()`. */
  function UpdatedRow(row: BookedSessionTableRow, updatedAttendee: SessionAttendee): BookedSessionTableRow {
    row.(attendees := row.attendees[updatedAttendee.userId := ToEntity(updatedAttendee)])
  }

  /**
   * Who hears about an attendee update: when the requester acts, every other
   * attendee; otherwise the requester alone.
   */
  function AttendeeUpdateTargets(row: BookedSessionTableRow, actorUserId: string): set<string> {
    if actorUserId == row.requesterUserId then row.attendees.Keys - {row.requesterUserId}
    else {row.requesterUserId}
  }

  /**
   * The actor is never told of their own update, the requester is told exactly
   * when someone else acts, and nobody outside the session and its requester is told.
   */
  lemma AttendeeUpdateNotifiesOthers(row: BookedSessionTableRow, actorUserId: string)
    ensures actorUserId !in AttendeeUpdateTargets(row, actorUserId)
    ensures row.requesterUserId in AttendeeUpdateTargets(row, actorUserId) <==> actorUserId != row.requesterUserId
    ensures AttendeeUpdateTargets(row, actorUserId) <= row.attendees.Keys + {row.requesterUserId}
    ensures actorUserId == row.requesterUserId ==>
      forall k | k in row.attendees && k != actorUserId :: k in AttendeeUpdateTargets(row, actorUserId)
  {
  }

  /** An update cancels the session when the requester declines. */
  predicate IsCancellation(row: BookedSessionTableRow, updatedAttendee: SessionAttendee) {
    updatedAttendee.status == DECLINED && updatedAttendee.userId == row.requesterUserId
  }

  /** The body of an update notification: the attendee's note, or a fixed text. */
  const NoReasonGiven: string := "No reason given."

  /**
   * An attendee update rewrites only that attendee's entry: the keys of the row,
   * its window and every other entry stay, and the entry reads back as given.
   */
  lemma UpdatedRowShape(row: BookedSessionTableRow, updatedAttendee: SessionAttendee)
    requires updatedAttendee.userId in row.attendees
    ensures var after := UpdatedRow(row, updatedAttendee);
      && after.attendees.Keys == row.attendees.Keys
      && FromDocument(after.attendees[updatedAttendee.userId]) == updatedAttendee
      && (forall k | k in row.attendees && k != updatedAttendee.userId :: after.attendees[k] == row.attendees[k])
      && after.(attendees := row.attendees) == row
  {
  }
}
