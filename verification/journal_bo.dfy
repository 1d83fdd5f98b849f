/**
 * A user's journal entries (model/Journal.kt, bo/JournalBo.kt): creating and
 * revising entries, retagging them, reading one, and listing a user's entries
 * filtered by keywords.
 */
module JournalBusiness {
  import opened Wrappers
  import opened Time
  import opened Entities
  import opened Base64Url
  import opened Utils

  /** `Journal`: an entry as the service hands it out; `id` is absent for a new entry. */
  datatype Journal = Journal(
    userId: string,
    title: string,
    text: string,
    updatedDateTime: ZonedDateTime,
    keywords: seq<string>,
    id: Option<string>)

  /** `journal.toEntity(userId, id)`: the row stored under (userId, id). */
  function ToEntity(journal: Journal, userId: string, id: string): (row: UserJournalTableRow)
    ensures row.userId == userId && row.id == id
    ensures row.title == journal.title && row.text == journal.text && row.keywords == journal.keywords
  {
    UserJournalTableRow(userId, id, journal.title, journal.text, journal.updatedDateTime, journal.keywords)
  }

  /**
   * `Journal.Mapper.from(row)` on the row as the store reads it back: the entry
   * the row describes, carrying the row's id, with its date converted to UTC.
   */
  function FromRow(row: UserJournalTableRow): (journal: Journal)
    ensures journal.id == Some(row.id) && journal.userId == row.userId
    ensures journal.updatedDateTime.offsetSeconds == 0
    ensures journal.updatedDateTime.epochSecond == row.updatedDateTime.epochSecond
  {
    Journal(row.userId, row.title, row.text, InUtc(row.updatedDateTime), row.keywords, Some(row.id))
  }

  /**
   * Mapping a row to an entry and back gives the row with its date in UTC (the
   * row itself when it was already in UTC); storing an entry and reading it back
   * gives the entry with its owner and id filled in and its date in UTC.
   */
  lemma RowRoundTrip(row: UserJournalTableRow, journal: Journal, userId: string, id: string)
    ensures ToEntity(FromRow(row), row.userId, row.id) == row.(updatedDateTime := InUtc(row.updatedDateTime))
    ensures row.updatedDateTime.offsetSeconds == 0 ==> ToEntity(FromRow(row), row.userId, row.id) == row
    ensures FromRow(ToEntity(journal, userId, id))
      == journal.(userId := userId, id := Some(id), updatedDateTime := InUtc(journal.updatedDateTime))
  {
  }

  /** Storage failures (`JournalBoException`) are not part of this model. */
  datatype JournalError = ResourceNotFound

  datatype Outcome = Done | Failed(error: JournalError)

  datatype Result<T> = Ok(value: T) | Err(error: JournalError)

  /** The journal table, keyed by (hash key `id` = user id, range key `sort_key` = entry id). */
  type JournalTable = map<(string, string), UserJournalTableRow>

  /** Every row is stored under its own (user id, entry id). */
  ghost predicate Keyed(table: JournalTable) {
    forall k | k in table :: (table[k].userId, table[k].id) == k
  }

  /**
   * The row `update` writes over an existing entry: its title, text and
   * keywords replaced, its owner, id and date kept.
   */
  function Revised(existing: UserJournalTableRow, journal: Journal): UserJournalTableRow {
    existing.(title := journal.title, text := journal.text, keywords := journal.keywords)
  }

  /**
   * Reading back a revised entry gives the submitted title, text and keywords
   * with the stored owner, id and instant; revising twice is revising once with
   * the later submission.
   */
  lemma RevisedReadsBack(existing: UserJournalTableRow, journal: Journal, later: Journal)
    ensures var read := FromRow(Revised(existing, journal));
      && read.title == journal.title && read.text == journal.text && read.keywords == journal.keywords
      && read.userId == existing.userId && read.id == Some(existing.id)
      && read.updatedDateTime == InUtc(existing.updatedDateTime)
    ensures Revised(Revised(existing, journal), later) == Revised(existing, later)
    ensures Revised(existing, FromRow(existing)) == existing
  {
  }

  const KeyConditionExpression: string := "id = :id"
  const IdPlaceholder: string := ":id"
  const KeywordsAttribute: string := "keywords"
  const KeywordPlaceholder: string := ":keyword"

  /** The request `queryFromDynamo` hands to the store. */
  datatype JournalQuery = JournalQuery(
    keyConditionExpression: string,
    values: map<string, string>,
    filterExpression: Option<string>)

  /** No keyword placeholder is the user id's placeholder. */
  lemma IdPlaceholderIsNotAKeywordPlaceholder(n: nat)
    ensures IdPlaceholder !in Placeholders(KeywordPlaceholder, n)
  {
    forall i | 0 <= i < n
      ensures IdPlaceholder != KeywordPlaceholder + NatToString(i)
    {
      assert |IdPlaceholder| < |KeywordPlaceholder + NatToString(i)|;
    }
  }

  /**
   * The user id's binding merged with the keyword bindings: every keyword
   * placeholder is bound to its keyword, the user id stays bound, and every
   * keyword placeholder appears in the filter expression.
   */
  lemma MergedValues(userId: string, keywords: seq<string>)
    requires |keywords| > 0
    ensures var (expression, keywordValues) := CreateContainsFilterExpression(KeywordsAttribute, KeywordPlaceholder, keywords, OR);
      var values := map[IdPlaceholder := userId] + keywordValues;
      && IdPlaceholder in values && values[IdPlaceholder] == userId
      && values.Keys == {IdPlaceholder} + Placeholders(KeywordPlaceholder, |keywords|)
      && |values| == |keywords| + 1
      && (forall i | 0 <= i < |keywords| :: values[KeywordPlaceholder + NatToString(i)] == keywords[i])
      && (forall key | key in values && key != IdPlaceholder :: Occurs(key, expression))
  {
    var (expression, keywordValues) := CreateContainsFilterExpression(KeywordsAttribute, KeywordPlaceholder, keywords, OR);
    FilterExpressionValues(KeywordsAttribute, KeywordPlaceholder, keywords, OR);
    IdPlaceholderIsNotAKeywordPlaceholder(|keywords|);
    var values := map[IdPlaceholder := userId] + keywordValues;
    assert values.Keys == {IdPlaceholder} + keywordValues.Keys;
  }

  /**
   * `queryFromDynamo(userId, keywords)` as a request: always the key condition
   * on the user id; with keywords, an OR of one "contains" clause per keyword,
   * the i-th placeholder bound to the i-th keyword, and the user id's binding
   * left in place.
   */
  method QueryFromDynamo(userId: string, keywords: seq<string>) returns (query: JournalQuery)
    ensures query.keyConditionExpression == KeyConditionExpression
    ensures IdPlaceholder in query.values && query.values[IdPlaceholder] == userId
    ensures |keywords| == 0 ==> query.filterExpression == None && query.values == map[IdPlaceholder := userId]
    ensures |keywords| > 0 ==>
      && query.filterExpression == Some(CreateContainsFilterExpression(KeywordsAttribute, KeywordPlaceholder, keywords, OR).0)
      && query.values.Keys == {IdPlaceholder} + Placeholders(KeywordPlaceholder, |keywords|)
      && |query.values| == |keywords| + 1
      && (forall i | 0 <= i < |keywords| :: query.values[KeywordPlaceholder + NatToString(i)] == keywords[i])
      && (forall key | key in query.values && key != IdPlaceholder :: Occurs(key, query.filterExpression.value))
  {
    var filterExpression: Option<string> := None;
    var values: map<string, string> := map[IdPlaceholder := userId];
    if |keywords| > 0 {
      var (expression, keywordValues) := CreateContainsFilterExpression(KeywordsAttribute, KeywordPlaceholder, keywords, OR);
      MergedValues(userId, keywords);
      filterExpression := Some(expression);
      values := values + keywordValues;
    }
    query := JournalQuery(KeyConditionExpression, values, filterExpression);
  }

  /**
   * What the store answers to that request: the user's rows, and when keywords
   * were given only those whose keyword list contains one of them.
   */
  predicate Matches(row: UserJournalTableRow, userId: string, keywords: seq<string>) {
    row.userId == userId && (|keywords| == 0 || exists i | 0 <= i < |keywords| :: keywords[i] in row.keywords)
  }

  /**
   * `journals` lists, once each under the keys in `listed`, the entries of the
   * rows that match, and misses none of them.
   */
  ghost predicate ListsMatches(
    table: JournalTable, userId: string, keywords: seq<string>, journals: seq<Journal>, listed: seq<(string, string)>)
  {
    && |journals| == |listed|
    && (forall i | 0 <= i < |listed| ::
          listed[i] in table && Matches(table[listed[i]], userId, keywords) && journals[i] == FromRow(table[listed[i]]))
    && (forall i, j | 0 <= i < j < |listed| :: listed[i] != listed[j])
    && (forall k | k in table && Matches(table[k], userId, keywords) :: k in listed)
  }

  /**
   * `journals` are the entries of exactly the rows that match, each once: every
   * entry is read from the matching row stored under its owner and id, and
   * every matching row's entry is there.
   */
  ghost predicate ShowsMatches(table: JournalTable, userId: string, keywords: seq<string>, journals: seq<Journal>) {
    && (forall i | 0 <= i < |journals| ::
          && journals[i].id.Some?
          && (journals[i].userId, journals[i].id.value) in table
          && Matches(table[(journals[i].userId, journals[i].id.value)], userId, keywords)
          && journals[i] == FromRow(table[(journals[i].userId, journals[i].id.value)]))
    && (forall k | k in table && Matches(table[k], userId, keywords) :: FromRow(table[k]) in journals)
    && (forall i, j | 0 <= i < j < |journals| :: journals[i].id != journals[j].id)
  }

  /** A complete listing of distinct keys shows exactly the matching entries. */
  lemma ListedAll(
    table: JournalTable, userId: string, keywords: seq<string>, journals: seq<Journal>, listed: seq<(string, string)>)
    requires Keyed(table)
    requires ListsMatches(table, userId, keywords, journals, listed)
    ensures ShowsMatches(table, userId, keywords, journals)
  {
    forall k | k in table && Matches(table[k], userId, keywords)
      ensures FromRow(table[k]) in journals
    {
      var i :| 0 <= i < |listed| && listed[i] == k;
      assert journals[i] == FromRow(table[k]);
    }
    forall i, j | 0 <= i < j < |journals|
      ensures journals[i].id != journals[j].id
    {
      assert listed[i] != listed[j];
      assert listed[i].0 == userId == listed[j].0;
    }
  }

  /** The loop's progress: the rows already looked at are listed exactly when they match. */
  ghost predicate ListedSoFar(
    table: JournalTable, userId: string, keywords: seq<string>, remaining: set<(string, string)>,
    journals: seq<Journal>, listed: seq<(string, string)>)
  {
    && remaining <= table.Keys
    && |journals| == |listed|
    && (forall i | 0 <= i < |listed| ::
          listed[i] in table && listed[i] !in remaining
          && Matches(table[listed[i]], userId, keywords) && journals[i] == FromRow(table[listed[i]]))
    && (forall i, j | 0 <= i < j < |listed| :: listed[i] != listed[j])
    && (forall k | k in table && k !in remaining && Matches(table[k], userId, keywords) :: k in listed)
  }

  lemma ListedStep(
    table: JournalTable, userId: string, keywords: seq<string>, remaining: set<(string, string)>,
    journals: seq<Journal>, listed: seq<(string, string)>, k: (string, string))
    requires ListedSoFar(table, userId, keywords, remaining, journals, listed)
    requires k in remaining
    ensures Matches(table[k], userId, keywords) ==>
      ListedSoFar(table, userId, keywords, remaining - {k}, journals + [FromRow(table[k])], listed + [k])
    ensures !Matches(table[k], userId, keywords) ==>
      ListedSoFar(table, userId, keywords, remaining - {k}, journals, listed)
  {
  }

  /**
   * The store's answer mapped through `Journal.Mapper.from`: the rows are
   * visited in an unspecified order, as the store returns them.
   */
  method QueryJournals(table: JournalTable, userId: string, keywords: seq<string>) returns (journals: seq<Journal>)
    requires Keyed(table)
    ensures ShowsMatches(table, userId, keywords, journals)
  {
    var remaining := table.Keys;
    journals := [];
    ghost var listed: seq<(string, string)> := [];
    while remaining != {}
      invariant ListedSoFar(table, userId, keywords, remaining, journals, listed)
      decreases remaining
    {
      var k :| k in remaining;
      ListedStep(table, userId, keywords, remaining, journals, listed, k);
      if Matches(table[k], userId, keywords) {
        journals := journals + [FromRow(table[k])];
        listed := listed + [k];
      }
      remaining := remaining - {k};
    }
    ListedAll(table, userId, keywords, journals, listed);
  }

  class JournalBo {
    var journalTable: JournalTable

    ghost predicate Valid()
      reads this
    {
      Keyed(journalTable)
    }

    constructor (table: JournalTable)
      requires Keyed(table)
      ensures Valid() && journalTable == table
    {
      journalTable := table;
    }

    /**
     * `update(journal)`: a journal without an id is stored as a new entry under
     * a fresh secure id drawn from `randomBytes`; one with an id must exist for
     * its user, and then only its title, text and keywords are replaced.
     */
    method Update(journal: Journal, randomBytes: seq<byte>) returns (outcome: Outcome)
      requires Valid()
      requires |randomBytes| == DefaultSecureIdLength
      modifies this
      ensures Valid()
      ensures journal.id.None? ==>
        var id := CreateSecureId(randomBytes);
        outcome == Done && journalTable == old(journalTable)[(journal.userId, id) := ToEntity(journal, journal.userId, id)]
      ensures journal.id.Some? && (journal.userId, journal.id.value) !in old(journalTable) ==>
        outcome == Failed(ResourceNotFound) && unchanged(this)
      ensures journal.id.Some? && (journal.userId, journal.id.value) in old(journalTable) ==>
        var key := (journal.userId, journal.id.value);
        outcome == Done && journalTable == old(journalTable)[key := Revised(old(journalTable)[key], journal)]
    {
      var row: UserJournalTableRow;
      if journal.id.Some? {
        var key := (journal.userId, journal.id.value);
        if key !in journalTable {
          return Failed(ResourceNotFound);
        }
        row := Revised(journalTable[key], journal);
      } else {
        row := ToEntity(journal, journal.userId, CreateSecureId(randomBytes));
      }
      journalTable := journalTable[(row.userId, row.id) := row];
      outcome := Done;
    }

    /** `get(userId, journalId)`: the stored entry with its date in UTC, or not found. */
    function Get(userId: string, journalId: string): (r: Result<Journal>)
      requires Valid()
      reads this
      ensures r.Ok? <==> (userId, journalId) in journalTable
      ensures r.Ok? ==>
        && r.value.id == Some(journalId)
        && ToEntity(r.value, userId, journalId) == journalTable[(userId, journalId)].(updatedDateTime := r.value.updatedDateTime)
        && r.value.updatedDateTime == InUtc(journalTable[(userId, journalId)].updatedDateTime)
      ensures r.Err? ==> r.error == ResourceNotFound
    {
      if (userId, journalId) in journalTable then Ok(FromRow(journalTable[(userId, journalId)])) else Err(ResourceNotFound)
    }

    /**
     * `getAll(userId, keywords)`: the user's entries, restricted to those
     * sharing a keyword with `keywords` when it is not empty; the table is not
     * changed.
     */
    method GetAll(userId: string, keywords: seq<string>) returns (journals: seq<Journal>)
      requires Valid()
      ensures ShowsMatches(journalTable, userId, keywords, journals)
      ensures forall i | 0 <= i < |journals| :: journals[i].userId == userId
    {
      // The request the service sends; the store answers it as `Matches` describes.
      var query := QueryFromDynamo(userId, keywords);
      journals := QueryJournals(journalTable, userId, keywords);
    }

    /** `updateKeywords(userId, journalId, keywords)`: the entry's keywords replaced, or not found. */
    method UpdateKeywords(userId: string, journalId: string, keywords: seq<string>) returns (outcome: Outcome)
      requires Valid()
      modifies this
      ensures Valid()
      ensures (userId, journalId) !in old(journalTable) ==> outcome == Failed(ResourceNotFound) && unchanged(this)
      ensures (userId, journalId) in old(journalTable) ==>
        outcome == Done
        && journalTable == old(journalTable)[(userId, journalId) := old(journalTable)[(userId, journalId)].(keywords := keywords)]
    {
      if (userId, journalId) !in journalTable {
        return Failed(ResourceNotFound);
      }
      var row := journalTable[(userId, journalId)];
      journalTable := journalTable[(userId, journalId) := row.(keywords := keywords)];
      outcome := Done;
    }
  }

  /**
   * A retagged entry is listed when filtering by one of its new keywords, and
   * with no keywords every entry of the user is listed.
   */
  lemma RetaggedEntryIsFound(row: UserJournalTableRow, keywords: seq<string>, filter: seq<string>, i: nat)
    requires i < |filter| && filter[i] in keywords
    ensures Matches(row.(keywords := keywords), row.userId, filter)
    ensures Matches(row, row.userId, [])
  {
  }
}
