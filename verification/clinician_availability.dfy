/** Weekly availability of a clinician (model/ClinicianAvailability.kt). */
module ClinicianAvailabilities {
  import opened Wrappers
  import opened Time
  import opened Entities

  /** The days of the week. */
  datatype Day = MONDAY | TUESDAY | WEDNESDAY | THURSDAY | FRIDAY | SATURDAY | SUNDAY

  /** `day.name`. */
  function DayName(d: Day): string {
    match d
    case MONDAY => "MONDAY"
    case TUESDAY => "TUESDAY"
    case WEDNESDAY => "WEDNESDAY"
    case THURSDAY => "THURSDAY"
    case FRIDAY => "FRIDAY"
    case SATURDAY => "SATURDAY"
    case SUNDAY => "SUNDAY"
  }

  /** `Day.valueOf(name)`; an unknown name has no day (valueOf throws). */
  function DayValueOf(name: string): Option<Day> {
    if name == "MONDAY" then Some(MONDAY)
    else if name == "TUESDAY" then Some(TUESDAY)
    else if name == "WEDNESDAY" then Some(WEDNESDAY)
    else if name == "THURSDAY" then Some(THURSDAY)
    else if name == "FRIDAY" then Some(FRIDAY)
    else if name == "SATURDAY" then Some(SATURDAY)
    else if name == "SUNDAY" then Some(SUNDAY)
    else None
  }

  /** Names and days correspond one to one, in both directions. */
  lemma DayNameRoundTrip(d: Day, name: string)
    ensures DayValueOf(DayName(d)) == Some(d)
    ensures DayValueOf(name) == Some(d) ==> DayName(d) == name
  {
    match d
    case MONDAY =>
    case TUESDAY => assert DayName(d)[0] != 'M';
    case WEDNESDAY => assert DayName(d)[0] != 'M' && DayName(d)[0] != 'T';
    case THURSDAY => assert DayName(d)[0] != 'M' && DayName(d)[0] != 'W' && DayName(d)[1] != "TUESDAY"[1];
    case FRIDAY => assert DayName(d)[0] == 'F';
    case SATURDAY => assert DayName(d)[0] == 'S' && DayName(d)[1] == 'A';
    case SUNDAY => assert DayName(d)[0] == 'S' && DayName(d)[1] == 'U';
  }

  lemma DayNameInjective(d1: Day, d2: Day)
    requires DayName(d1) == DayName(d2)
    ensures d1 == d2
  {
    DayNameRoundTrip(d1, DayName(d1));
    DayNameRoundTrip(d2, DayName(d2));
  }

  /** `Availability(startTime, endTime)`; null times are `None`. */
  datatype Availability = Availability(startTime: Option<LocalTime>, endTime: Option<LocalTime>)

  /** `Availability.toEntity()`. */
  function AvailabilityToEntity(a: Availability): AvailabilityDocument {
    AvailabilityDocument(a.startTime, a.endTime)
  }

  /** `Availability.Mapper.from(document)`. */
  function AvailabilityFrom(d: AvailabilityDocument): Availability {
    Availability(d.startTime, d.endTime)
  }

  /** Storing an availability and reading it back keeps its start and end times. */
  lemma AvailabilityRoundTrip(a: Availability, d: AvailabilityDocument)
    ensures AvailabilityFrom(AvailabilityToEntity(a)) == a
    ensures AvailabilityToEntity(AvailabilityFrom(d)) == d
  {
  }

  /** `Availability.Default.weekday()`: 09:00 to 17:00. */
  function DefaultWeekday(): Availability {
    Availability(Some(LocalTime(9, 0)), Some(LocalTime(17, 0)))
  }

  /** `Availability.Default.weekend()`: no start and no end. */
  function DefaultWeekend(): Availability {
    Availability(None, None)
  }

  /** `ClinicianAvailability(availabilities)`. */
  datatype ClinicianAvailability = ClinicianAvailability(availabilities: map<Day, Availability>)

  /** The constructor's default argument: weekdays 09:00-17:00, weekends unset. */
  function DefaultClinicianAvailability(): ClinicianAvailability {
    ClinicianAvailability(map[
      MONDAY := DefaultWeekday(),
      TUESDAY := DefaultWeekday(),
      WEDNESDAY := DefaultWeekday(),
      THURSDAY := DefaultWeekday(),
      FRIDAY := DefaultWeekday(),
      SATURDAY := DefaultWeekend(),
      SUNDAY := DefaultWeekend()])
  }

  /** The default covers all seven days: Monday-Friday 09:00-17:00, Saturday and Sunday without times. */
  lemma DefaultCoversWeek(d: Day)
    ensures d in DefaultClinicianAvailability().availabilities
    ensures DefaultClinicianAvailability().availabilities[d] ==
      if d == SATURDAY || d == SUNDAY then Availability(None, None)
      else Availability(Some(LocalTime(9, 0)), Some(LocalTime(17, 0)))
  {
  }

  /** `toEntityAvailabilities()`: every entry keyed by its day's name. */
  function ToEntityAvailabilities(c: ClinicianAvailability): map<string, AvailabilityDocument> {
    map d | d in c.availabilities :: DayName(d) := AvailabilityToEntity(c.availabilities[d])
  }

  /** The stored map has one entry per day, under the day's name, holding that day's times. */
  lemma ToEntityAvailabilitiesKeys(c: ClinicianAvailability)
    ensures ToEntityAvailabilities(c).Keys == set d | d in c.availabilities :: DayName(d)
    ensures |ToEntityAvailabilities(c)| == |c.availabilities|
    ensures forall d | d in c.availabilities ::
      ToEntityAvailabilities(c)[DayName(d)] == AvailabilityDocument(c.availabilities[d].startTime, c.availabilities[d].endTime)
  {
    var m := ToEntityAvailabilities(c);
    forall d1, d2 | d1 in c.availabilities && d2 in c.availabilities && DayName(d1) == DayName(d2)
      ensures d1 == d2
    {
      DayNameInjective(d1, d2);
    }
    DaySetSize(c.availabilities.Keys, m.Keys);
  }

  /** Naming is injective, so a set of days and the set of their names have equal size. */
  lemma {:induction false} DaySetSize(days: set<Day>, names: set<string>)
    requires names == set d | d in days :: DayName(d)
    ensures |names| == |days|
    decreases |days|
  {
    if days != {} {
      var d :| d in days;
      var rest := days - {d};
      var restNames := set x | x in rest :: DayName(x);
      forall x | x in rest
        ensures DayName(x) != DayName(d)
      {
        if DayName(x) == DayName(d) {
          DayNameInjective(x, d);
        }
      }
      assert names == restNames + {DayName(d)};
      DaySetSize(rest, restNames);
    }
  }

  /** Every stored key is a day name, the condition under which `Mapper.from` does not throw. */
  predicate AllDayNames(docs: map<string, AvailabilityDocument>) {
    forall k | k in docs :: DayValueOf(k).Some?
  }

  /** `ClinicianAvailability.Mapper.from(documents)`; `None` when a key is not a day name. */
  function FromEntity(docs: map<string, AvailabilityDocument>): Option<ClinicianAvailability> {
    if AllDayNames(docs) then
      Some(ClinicianAvailability(
        map d: Day | DayName(d) in docs :: AvailabilityFrom(docs[DayName(d)])))
    else None
  }

  /** `ClinicianAvailability.Mapper.from(request)`. */
  function FromRequest(requestAvailabilities: map<Day, Availability>): ClinicianAvailability {
    ClinicianAvailability(requestAvailabilities)
  }

  /** The request's availabilities are used as they are. */
  lemma FromRequestUnchanged(requestAvailabilities: map<Day, Availability>)
    ensures FromRequest(requestAvailabilities).availabilities == requestAvailabilities
  {
  }

  /** A day's name is a key of the stored map exactly when the day is present. */
  lemma ToEntityAvailabilitiesAt(c: ClinicianAvailability, d: Day)
    ensures DayName(d) in ToEntityAvailabilities(c) <==> d in c.availabilities
    ensures d in c.availabilities ==> ToEntityAvailabilities(c)[DayName(d)] == AvailabilityToEntity(c.availabilities[d])
  {
    if DayName(d) in ToEntityAvailabilities(c) {
      var d' :| d' in c.availabilities && DayName(d') == DayName(d);
      DayNameInjective(d, d');
    }
  }

  /** Reading back the stored map restores the same days with the same start and end times. */
  lemma EntityRoundTrip(c: ClinicianAvailability)
    ensures FromEntity(ToEntityAvailabilities(c)) == Some(c)
  {
    var docs := ToEntityAvailabilities(c);
    forall k | k in docs
      ensures DayValueOf(k).Some?
    {
      var d :| d in c.availabilities && DayName(d) == k;
      DayNameRoundTrip(d, k);
    }
    assert AllDayNames(docs);
    var restored := map d: Day | DayName(d) in docs :: AvailabilityFrom(docs[DayName(d)]);
    forall d: Day
      ensures d in restored <==> d in c.availabilities
      ensures d in restored ==> restored[d] == c.availabilities[d]
    {
      ToEntityAvailabilitiesAt(c, d);
    }
    assert restored == c.availabilities;
  }

  /** Reading a stored map whose keys are all day names and storing it again gives the same map. */
  lemma DocumentRoundTrip(docs: map<string, AvailabilityDocument>)
    requires AllDayNames(docs)
    ensures FromEntity(docs).Some?
    ensures ToEntityAvailabilities(FromEntity(docs).value) == docs
  {
    var c := FromEntity(docs).value;
    var back := ToEntityAvailabilities(c);
    forall k
      ensures k in back <==> k in docs
    {
      if k in docs {
        var d := DayValueOf(k).value;
        DayNameRoundTrip(d, k);
        assert d in c.availabilities;
      }
    }
    forall k | k in docs
      ensures back[k] == docs[k]
    {
      var d := DayValueOf(k).value;
      DayNameRoundTrip(d, k);
    }
  }
}
