/**
 * Registration and profile maintenance shared by clinicians and clients
 * (bo/UserBo.kt). The role-specific user table, the common user table (display
 * name and device endpoints) and the calls made to the identity provider are
 * the state of the object.
 */
module UserBusiness {
  import opened Wrappers
  import opened Entities

  /** Which user table the object serves: `UserBo<Clinician, ClinicianTableRow>` or the client one. */
  datatype Role = ClinicianRole | ClientRole

  /** The attributes of `AbstractUser` the operations read. */
  datatype User = User(email: string, phoneNumber: string, firstName: string, lastName: string)

  /**
   * A user table row; `clients` is present exactly in clinician rows
   * (`ClinicianTableRow.clients`).
   */
  datatype UserRow = UserRow(
    id: string,
    email: string,
    phoneNumber: string,
    firstName: string,
    lastName: string,
    clients: Option<seq<string>>)

  /** A call made to the identity provider's management interface. */
  datatype Auth0Call = UnblockUser(userId: string) | UpdateUserPhoneNumber(userId: string, phoneNumber: string)

  /**
   * `DuplicateResourceException`, `ResourceNotFoundException`,
   * `UserProfileUpdateException(fieldErrors)` and a failure of the push gateway.
   */
  datatype UserError =
    | DuplicateResource
    | ResourceNotFound
    | ProfileUpdateRejected(fieldErrors: map<string, string>)
    | PushServiceError

  datatype Outcome = Done | Failed(error: UserError)

  datatype Result<T> = Ok(value: T) | Err(error: UserError)

  const EmailField: string := "email"
  const PhoneNumberField: string := "phoneNumber"
  const DuplicateEmailMessage: string := "User with email address already exists"
  const DuplicatePhoneMessage: string := "User with phone number already exists"

  /** `user.toEntity(auth0UserId)`: a clinician row starts with no clients. */
  function ToEntity(role: Role, user: User, auth0UserId: string): UserRow {
    UserRow(auth0UserId, user.email, user.phoneNumber, user.firstName, user.lastName,
      if role == ClinicianRole then Some([]) else None)
  }

  /** The display name `"$firstName $lastName"`. */
  function FriendlyName(firstName: string, lastName: string): (name: string)
    ensures |name| == |firstName| + 1 + |lastName|
    ensures name[..|firstName|] == firstName && name[|firstName|] == ' ' && name[|firstName| + 1..] == lastName
  {
    firstName + " " + lastName
  }

  /** `queryEmailGsi(email).isNotEmpty()`: some row has the email. */
  predicate EmailTaken(users: map<string, UserRow>, email: string) {
    exists id | id in users :: users[id].email == email
  }

  /** `doesDuplicateEmailExist(email, auth0UserId)`: a row of another user has the email. */
  predicate DuplicateEmailExists(users: map<string, UserRow>, email: string, auth0UserId: string) {
    exists id | id in users :: users[id].email == email && users[id].id != auth0UserId
  }

  /** `doesDuplicatePhoneExist(phoneNumber, auth0UserId)`: a row of another user has the number. */
  predicate DuplicatePhoneExists(users: map<string, UserRow>, phoneNumber: string, auth0UserId: string) {
    exists id | id in users :: users[id].phoneNumber == phoneNumber && users[id].id != auth0UserId
  }

  /** Every row is stored under its own id. */
  ghost predicate KeyedUsers(users: map<string, UserRow>) {
    forall id | id in users :: users[id].id == id
  }

  /**
   * The registration check and the profile check agree: an email is taken
   * exactly when another user has it or the user's own row has it.
   */
  lemma EmailTakenSplits(users: map<string, UserRow>, email: string, auth0UserId: string)
    requires KeyedUsers(users)
    ensures EmailTaken(users, email) <==>
      DuplicateEmailExists(users, email, auth0UserId) || (auth0UserId in users && users[auth0UserId].email == email)
  {
    if EmailTaken(users, email) && !DuplicateEmailExists(users, email, auth0UserId) {
      var id :| id in users && users[id].email == email;
      assert users[id].id == auth0UserId;
    }
  }

  /** No two users share an email address. */
  ghost predicate UniqueEmails(users: map<string, UserRow>) {
    forall a, b | a in users && b in users && a != b :: users[a].email != users[b].email
  }

  /**
   * The row `updateProfile` writes: the new attributes, and for a clinician the
   * client list of the existing row.
   */
  function UpdatedUserRow(role: Role, user: User, auth0UserId: string, existing: UserRow): UserRow {
    var row := ToEntity(role, user, auth0UserId);
    if role == ClinicianRole then row.(clients := existing.clients) else row
  }

  /**
   * The rewritten row carries the new name, email and phone number, keeps its
   * id, and for a clinician keeps the client list unchanged.
   */
  lemma UpdatedUserRowKeepsClients(role: Role, user: User, auth0UserId: string, existing: UserRow)
    ensures var row := UpdatedUserRow(role, user, auth0UserId, existing);
      && row.id == auth0UserId
      && row.email == user.email && row.phoneNumber == user.phoneNumber
      && row.firstName == user.firstName && row.lastName == user.lastName
      && (role == ClinicianRole ==> row.clients == existing.clients)
      && (role == ClientRole ==> row.clients == None)
  {
  }

  /**
   * Writing a row under its owner's id keeps emails unique when the email is
   * that of the row it replaces, or no other user has it.
   */
  lemma WriteKeepsUniqueEmails(users: map<string, UserRow>, auth0UserId: string, row: UserRow)
    requires KeyedUsers(users) && UniqueEmails(users)
    requires !DuplicateEmailExists(users, row.email, auth0UserId)
      || (auth0UserId in users && users[auth0UserId].email == row.email)
    ensures UniqueEmails(users[auth0UserId := row])
  {
    forall other | other in users && other != auth0UserId
      ensures users[other].email != row.email
    {
      assert users[other].id == other;
    }
  }

  class UserBo {
    const role: Role
    var userTable: map<string, UserRow>
    var userCommonTable: map<string, UserCommonTableRow>
    var auth0Calls: seq<Auth0Call>

    /** Rows are stored under their ids, and the client list is present exactly for clinicians. */
    ghost predicate Valid()
      reads this
    {
      && KeyedUsers(userTable)
      && (forall id | id in userTable :: userTable[id].clients.Some? <==> role == ClinicianRole)
      && (forall id | id in userCommonTable :: userCommonTable[id].id == id)
    }

    constructor (r: Role, users: map<string, UserRow>, userCommons: map<string, UserCommonTableRow>)
      requires KeyedUsers(users)
      requires forall id | id in users :: users[id].clients.Some? <==> r == ClinicianRole
      requires forall id | id in userCommons :: userCommons[id].id == id
      ensures Valid()
      ensures role == r && userTable == users && userCommonTable == userCommons && auth0Calls == []
    {
      role := r;
      userTable := users;
      userCommonTable := userCommons;
      auth0Calls := [];
    }

    /** `doesUserExist(email)`: some user row has the email. */
    predicate DoesUserExist(email: string)
      reads this
    {
      EmailTaken(userTable, email)
    }

    /**
     * `register(user, auth0UserId)`: refuses an email that is already taken
     * before writing anything; otherwise writes the user row and a common row
     * named after the user with no devices, then unblocks the account.
     */
    method Register(user: User, auth0UserId: string) returns (outcome: Outcome)
      requires Valid()
      modifies this
      ensures Valid()
      ensures old(DoesUserExist(user.email)) ==> outcome == Failed(DuplicateResource) && unchanged(this)
      ensures !old(DoesUserExist(user.email)) ==>
        && outcome == Done
        && userTable == old(userTable)[auth0UserId := ToEntity(role, user, auth0UserId)]
        && userCommonTable == old(userCommonTable)[auth0UserId :=
             UserCommonTableRow(auth0UserId, FriendlyName(user.firstName, user.lastName), [], false)]
        && auth0Calls == old(auth0Calls) + [UnblockUser(auth0UserId)]
      ensures old(UniqueEmails(userTable)) ==> UniqueEmails(userTable)
    {
      if DoesUserExist(user.email) {
        return Failed(DuplicateResource);
      }
      var row := ToEntity(role, user, auth0UserId);
      if UniqueEmails(userTable) {
        WriteKeepsUniqueEmails(userTable, auth0UserId, row);
      }
      userTable := userTable[auth0UserId := row];
      userCommonTable := userCommonTable[auth0UserId :=
        UserCommonTableRow(auth0UserId, FriendlyName(user.firstName, user.lastName), [], false)];
      auth0Calls := auth0Calls + [UnblockUser(auth0UserId)];
      outcome := Done;
    }

    /**
     * `updateProfile(userToUpdate, auth0UserId)`: not found without both rows;
     * otherwise collects a field error for a changed email that another user
     * has and one for a changed phone number that another user has, and
     * rejects the update with all of them before any write. Without errors it
     * rewrites the user row (keeping a clinician's clients), renames the common
     * row and updates the phone number at the identity provider.
     */
    method UpdateProfile(userToUpdate: User, auth0UserId: string) returns (r: Result<User>)
      requires Valid()
      modifies this
      ensures Valid()
      ensures auth0UserId !in old(userTable) || auth0UserId !in old(userCommonTable) ==>
        r == Err(ResourceNotFound) && unchanged(this)
      ensures auth0UserId in old(userTable) && auth0UserId in old(userCommonTable) ==>
        var existing := old(userTable)[auth0UserId];
        var emailClash := existing.email != userToUpdate.email
          && DuplicateEmailExists(old(userTable), userToUpdate.email, auth0UserId);
        var phoneClash := existing.phoneNumber != userToUpdate.phoneNumber
          && DuplicatePhoneExists(old(userTable), userToUpdate.phoneNumber, auth0UserId);
        && (emailClash || phoneClash ==>
              && r.Err? && r.error.ProfileUpdateRejected?
              && (EmailField in r.error.fieldErrors <==> emailClash)
              && (PhoneNumberField in r.error.fieldErrors <==> phoneClash)
              && r.error.fieldErrors.Keys <= {EmailField, PhoneNumberField}
              && (emailClash ==> r.error.fieldErrors[EmailField] == DuplicateEmailMessage)
              && (phoneClash ==> r.error.fieldErrors[PhoneNumberField] == DuplicatePhoneMessage)
              && unchanged(this))
        && (!emailClash && !phoneClash ==>
              && r == Ok(userToUpdate)
              && userTable == old(userTable)[auth0UserId := UpdatedUserRow(role, userToUpdate, auth0UserId, existing)]
              && userCommonTable == old(userCommonTable)[auth0UserId := old(userCommonTable)[auth0UserId].(
                   userFriendlyIdentifier := FriendlyName(userToUpdate.firstName, userToUpdate.lastName))]
              && auth0Calls == old(auth0Calls) + [UpdateUserPhoneNumber(auth0UserId, userToUpdate.phoneNumber)])
      ensures old(UniqueEmails(userTable)) ==> UniqueEmails(userTable)
    {
      if auth0UserId !in userTable || auth0UserId !in userCommonTable {
        return Err(ResourceNotFound);
      }
      var existing := userTable[auth0UserId];
      var common := userCommonTable[auth0UserId];
      var fieldErrors: map<string, string> := map[];
      if existing.email != userToUpdate.email && DuplicateEmailExists(userTable, userToUpdate.email, auth0UserId) {
        fieldErrors := fieldErrors[EmailField := DuplicateEmailMessage];
      }
      if existing.phoneNumber != userToUpdate.phoneNumber
        && DuplicatePhoneExists(userTable, userToUpdate.phoneNumber, auth0UserId)
      {
        fieldErrors := fieldErrors[PhoneNumberField := DuplicatePhoneMessage];
      }
      if fieldErrors != map[] {
        return Err(ProfileUpdateRejected(fieldErrors));
      }
      assert EmailField !in fieldErrors;
      var row := UpdatedUserRow(role, userToUpdate, auth0UserId, existing);
      if UniqueEmails(userTable) {
        WriteKeepsUniqueEmails(userTable, auth0UserId, row);
      }
      userTable := userTable[auth0UserId := row];
      userCommonTable := userCommonTable[auth0UserId :=
        common.(userFriendlyIdentifier := FriendlyName(userToUpdate.firstName, userToUpdate.lastName))];
      auth0Calls := auth0Calls + [UpdateUserPhoneNumber(auth0UserId, userToUpdate.phoneNumber)];
      r := Ok(userToUpdate);
    }

    /**
     * `updateFcmToken(auth0UserId, token)`, where the push gateway answered the
     * registration of the token with `endpointArn` (`None`: it failed). Not found
     * without a common row; otherwise the new endpoint is appended after the
     * existing ones and nothing else changes.
     */
    method UpdateFcmToken(auth0UserId: string, endpointArn: Option<string>) returns (outcome: Outcome)
      requires Valid()
      modifies this`userCommonTable
      ensures Valid()
      ensures auth0UserId !in old(userCommonTable) ==> outcome == Failed(ResourceNotFound) && unchanged(this)
      ensures auth0UserId in old(userCommonTable) && endpointArn.None? ==>
        outcome == Failed(PushServiceError) && unchanged(this)
      ensures auth0UserId in old(userCommonTable) && endpointArn.Some? ==>
        var before := old(userCommonTable)[auth0UserId];
        && outcome == Done
        && userCommonTable.Keys == old(userCommonTable).Keys
        && (forall id | id in userCommonTable && id != auth0UserId :: userCommonTable[id] == old(userCommonTable)[id])
        && userCommonTable[auth0UserId].gcmConfigs == before.gcmConfigs + [GcmConfigDocument(endpointArn.value)]
        && userCommonTable[auth0UserId] == before.(gcmConfigs := userCommonTable[auth0UserId].gcmConfigs)
    {
      if auth0UserId !in userCommonTable {
        return Failed(ResourceNotFound);
      }
      var existing := userCommonTable[auth0UserId];
      if endpointArn.None? {
        return Failed(PushServiceError);
      }
      var gcmConfig := GcmConfigDocument(endpointArn.value);
      userCommonTable := userCommonTable[auth0UserId := existing.(gcmConfigs := existing.gcmConfigs + [gcmConfig])];
      outcome := Done;
    }
  }
}
