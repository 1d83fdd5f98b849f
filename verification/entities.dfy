/**
 * The stored rows (model/entity/): plain records keyed as in the key-value store.
 */
module Entities {
  import opened Wrappers
  import opened Time
  import opened SessionAttendees

  /**
   * `BookedSessionTableRow`: hash key `id` (the room id); the secondary index
   * `session_date_index` is keyed by (`sessionDate`, `clinicianId`).
   */
  datatype BookedSessionTableRow = BookedSessionTableRow(
    id: string,
    clinicianId: string,
    sessionDate: int,
    startDateTime: ZonedDateTime,
    endDateTime: ZonedDateTime,
    subject: string,
    attendees: map<string, SessionAttendeeDocument>,
    requesterUserId: string,
    isModerated: bool)

  /** `BookedSessionAssociationTableRow`: hash key `id` (a user), range key `sortKey` (a session). */
  datatype BookedSessionAssociationTableRow = BookedSessionAssociationTableRow(
    id: string,
    sortKey: string,
    ttl: int,
    startDateTime: ZonedDateTime,
    endDateTime: ZonedDateTime)

  /** `GcmConfigDocument`: one device endpoint of a user. */
  datatype GcmConfigDocument = GcmConfigDocument(gcmDeviceSnsEndpoint: string)

  /** `UserCommonTableRow`: display name and device endpoints of a user. */
  datatype UserCommonTableRow = UserCommonTableRow(
    id: string,
    userFriendlyIdentifier: string,
    gcmConfigs: seq<GcmConfigDocument>,
    areNotificationsPaused: bool)

  /** `UserJournalTableRow`: hash key `userId`, range key `id`. */
  datatype UserJournalTableRow = UserJournalTableRow(
    userId: string,
    id: string,
    title: string,
    text: string,
    updatedDateTime: ZonedDateTime,
    keywords: seq<string>)

  /** `AvailabilityDocument`: a stored availability window; absent times are null. */
  datatype AvailabilityDocument = AvailabilityDocument(startTime: Option<LocalTime>, endTime: Option<LocalTime>)
}
