/** Notification texts (util/PushNotificationUtils.kt). */
module PushNotificationUtils {
  import opened Wrappers
  import opened SessionAttendees

  const NewSessionCreationPrefix: string := "A new session has been scheduled at "
  const TitleMiddle: string := " has "
  const TitleSuffix: string := " a session"

  /** ASCII lower-casing of one character, as `lowercase()` does for the status names. */
  function LowerChar(c: char): char {
    if 'A' <= c <= 'Z' then (c as int + 32) as char else c
  }

  /** Lower-casing leaves no upper-case ASCII letter and keeps every other character. */
  function Lower(s: string): (r: string)
    ensures |r| == |s|
    ensures forall i | 0 <= i < |r| :: !('A' <= r[i] <= 'Z')
    ensures forall i | 0 <= i < |s| && !('A' <= s[i] <= 'Z') :: r[i] == s[i]
  {
    seq(|s|, i requires 0 <= i < |s| => LowerChar(s[i]))
  }

  /** The verb of a title: `status.name.lowercase()`. */
  function Verb(s: Status): string {
    Lower(StatusName(s))
  }

  /** `getNewSessionCreationBody(sessionDate)`: the format "A new session has been scheduled at %s". */
  function NewSessionCreationBody(sessionDate: string): string {
    NewSessionCreationPrefix + sessionDate
  }

  /** `getUpdatedAttendeeTitle(userIdentifier, status)`: the format "%s has %s a session". */
  function UpdatedAttendeeTitle(userIdentifier: string, status: Status): string {
    userIdentifier + TitleMiddle + Verb(status) + TitleSuffix
  }

  /** The verbs are the lower-case status names. */
  lemma VerbSpelling()
    ensures Verb(TENTATIVE) == "tentative"
    ensures Verb(ACCEPTED) == "accepted"
    ensures Verb(DECLINED) == "declined"
    ensures Verb(CANCELLED) == "cancelled"
  {
    assert Lower("TENTATIVE") == "tentative";
    assert Lower("ACCEPTED") == "accepted";
    assert Lower("DECLINED") == "declined";
    assert Lower("CANCELLED") == "cancelled";
  }

  /** Reads the date back out of a creation body; `None` if the body has another shape. */
  function SessionDateOfBody(body: string): Option<string> {
    if |NewSessionCreationPrefix| <= |body| && body[..|NewSessionCreationPrefix|] == NewSessionCreationPrefix
    then Some(body[|NewSessionCreationPrefix|..])
    else None
  }

  /** The body is the fixed sentence followed by the date, which can be read back unchanged. */
  lemma NewSessionCreationBodyRoundTrip(sessionDate: string)
    ensures NewSessionCreationBody(sessionDate)[..|NewSessionCreationPrefix|] == NewSessionCreationPrefix
    ensures SessionDateOfBody(NewSessionCreationBody(sessionDate)) == Some(sessionDate)
  {
    var body := NewSessionCreationBody(sessionDate);
    assert body[..|NewSessionCreationPrefix|] == NewSessionCreationPrefix;
    assert body[|NewSessionCreationPrefix|..] == sessionDate;
  }

  /** The status whose verb is `verb`, if any. */
  function StatusOfVerb(verb: string): Option<Status> {
    if verb == "tentative" then Some(TENTATIVE)
    else if verb == "accepted" then Some(ACCEPTED)
    else if verb == "declined" then Some(DECLINED)
    else if verb == "cancelled" then Some(CANCELLED)
    else None
  }

  /**
   * Reads the status back out of a title addressed by `userIdentifier`; `None`
   * if the title does not have the shape "<user> has <verb> a session".
   */
  function StatusOfTitle(userIdentifier: string, title: string): Option<Status> {
    var head := userIdentifier + TitleMiddle;
    if |head| + |TitleSuffix| <= |title|
       && title[..|head|] == head
       && title[|title| - |TitleSuffix|..] == TitleSuffix
    then StatusOfVerb(title[|head|..|title| - |TitleSuffix|])
    else None
  }

  /**
   * The title begins with the user identifier unchanged, and it determines the
   * status: reading it back gives the status it was built from.
   */
  lemma UpdatedAttendeeTitleRoundTrip(userIdentifier: string, status: Status)
    ensures UpdatedAttendeeTitle(userIdentifier, status)[..|userIdentifier|] == userIdentifier
    ensures StatusOfTitle(userIdentifier, UpdatedAttendeeTitle(userIdentifier, status)) == Some(status)
  {
    var title := UpdatedAttendeeTitle(userIdentifier, status);
    var head := userIdentifier + TitleMiddle;
    assert title == head + Verb(status) + TitleSuffix;
    assert title[..|userIdentifier|] == userIdentifier;
    assert title[..|head|] == head;
    assert title[|title| - |TitleSuffix|..] == TitleSuffix;
    assert title[|head|..|title| - |TitleSuffix|] == Verb(status);
    VerbSpelling();
  }

  /** Two titles for the same user differ whenever the statuses differ. */
  lemma UpdatedAttendeeTitleInjective(userIdentifier: string, s1: Status, s2: Status)
    requires UpdatedAttendeeTitle(userIdentifier, s1) == UpdatedAttendeeTitle(userIdentifier, s2)
    ensures s1 == s2
  {
    UpdatedAttendeeTitleRoundTrip(userIdentifier, s1);
    UpdatedAttendeeTitleRoundTrip(userIdentifier, s2);
  }
}
