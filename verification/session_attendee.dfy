/**
 * Session attendees (model/SessionAttendee.kt) and the attendee sub-document
 * stored inside a session row (model/entity/SessionAttendeeDocument.kt).
 */
module SessionAttendees {
  import opened Wrappers

  /** `SessionAttendeeStatus`: exactly four statuses. */
  datatype Status = TENTATIVE | ACCEPTED | DECLINED | CANCELLED

  /** `status.name`: the enum constant's name. */
  function StatusName(s: Status): string {
    match s
    case TENTATIVE => "TENTATIVE"
    case ACCEPTED => "ACCEPTED"
    case DECLINED => "DECLINED"
    case CANCELLED => "CANCELLED"
  }

  /** `SessionAttendeeStatus.valueOf(name)`; an unknown name has no status (valueOf throws). */
  function StatusValueOf(name: string): (r: Option<Status>)
    ensures r.Some? ==> StatusName(r.value) == name
  {
    if name == "TENTATIVE" then Some(TENTATIVE)
    else if name == "ACCEPTED" then Some(ACCEPTED)
    else if name == "DECLINED" then Some(DECLINED)
    else if name == "CANCELLED" then Some(CANCELLED)
    else None
  }

  /** The status domain has exactly four values, with four distinct names. */
  lemma StatusDomain(s: Status)
    ensures s in {TENTATIVE, ACCEPTED, DECLINED, CANCELLED}
    ensures |{StatusName(TENTATIVE), StatusName(ACCEPTED), StatusName(DECLINED), StatusName(CANCELLED)}| == 4
  {
    assert StatusName(TENTATIVE)[0] == 'T' && StatusName(ACCEPTED)[0] == 'A';
    assert StatusName(DECLINED)[0] == 'D' && StatusName(CANCELLED)[0] == 'C';
  }

  /** The stored name of a status reads back as that status. */
  lemma StatusNameRoundTrip(s: Status)
    ensures StatusValueOf(StatusName(s)) == Some(s)
  {
    match s
    case TENTATIVE =>
    case ACCEPTED =>
      assert StatusName(s)[0] != "TENTATIVE"[0];
    case DECLINED =>
      assert StatusName(s)[0] != "TENTATIVE"[0] && StatusName(s)[0] != "ACCEPTED"[0];
    case CANCELLED =>
      assert StatusName(s)[0] != "TENTATIVE"[0] && StatusName(s)[0] != "ACCEPTED"[0];
      assert StatusName(s)[0] != "DECLINED"[0];
  }

  /** `SessionAttendee(userId, status, note)`; a null note is `None`. */
  datatype SessionAttendee = SessionAttendee(userId: string, status: Status, note: Option<string>)

  /** `SessionAttendeeDocument`: the same three attributes, as stored. */
  datatype SessionAttendeeDocument = SessionAttendeeDocument(userId: string, status: Status, note: Option<string>)

  /** `SessionAttendee.toEntity()`. */
  function ToEntity(a: SessionAttendee): (d: SessionAttendeeDocument)
    ensures d.userId == a.userId
  {
    SessionAttendeeDocument(a.userId, a.status, a.note)
  }

  /** `SessionAttendee.Mapper.from(userId, status, note)`. */
  function From(userId: string, status: Status, note: Option<string>): SessionAttendee {
    SessionAttendee(userId, status, note)
  }

  /** `SessionAttendee.Mapper.from(userId)`, using the default status and note. */
  function FromUserId(userId: string): SessionAttendee {
    From(userId, TENTATIVE, None)
  }

  /** `SessionAttendee.Mapper.from(document)`. */
  function FromDocument(d: SessionAttendeeDocument): (a: SessionAttendee)
    ensures a.userId == d.userId
  {
    SessionAttendee(d.userId, d.status, d.note)
  }

  /** Storing an attendee and reading it back gives the same attendee. */
  lemma DocumentRoundTrip(a: SessionAttendee)
    ensures FromDocument(ToEntity(a)) == a
  {
  }

  /** Reading a document and storing it again gives the same document. */
  lemma AttendeeRoundTrip(d: SessionAttendeeDocument)
    ensures ToEntity(FromDocument(d)) == d
  {
  }

  /** The defaults of `Mapper.from(userId)`: TENTATIVE, no note. */
  lemma FromUserIdDefaults(userId: string)
    ensures FromUserId(userId).userId == userId
    ensures FromUserId(userId).status == TENTATIVE && FromUserId(userId).note == None
  {
  }

  /** `Mapper.from(userId, status, note)` keeps its three arguments, and nothing else determines it. */
  lemma FromPreservesArguments(userId: string, status: Status, note: Option<string>)
    ensures From(userId, status, note).userId == userId
    ensures From(userId, status, note).status == status
    ensures From(userId, status, note).note == note
    ensures forall a: SessionAttendee :: a.userId == userId && a.status == status && a.note == note ==> a == From(userId, status, note)
  {
  }
}
