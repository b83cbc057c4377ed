/** Submitted times, the check of a range, and what the database keeps of a time. */
module Times {
  import opened Wrappers

  /** `datetime.fromisoformat`: a clock reading, and the UTC offset when the text has one; both in minutes, say. */
  datatype Time = Time(clock: int, offset: Option<int>)

  /** SQLite keeps the clock reading; Postgres turns a time with an offset into its session's zone first. */
  datatype Dialect = Sqlite | Postgres(zone: int)

  function Stored(dialect: Dialect, t: Time): int {
    if dialect.Postgres? && t.offset.Some? then t.clock - t.offset.value + dialect.zone else t.clock
  }

  function StoredTime(dialect: Dialect, t: Option<Time>): Option<int> {
    match t case None => None case Some(time) => Some(Stored(dialect, time))
  }

  /** A stored time as it is read back: without an offset. */
  function ReadBack(t: Option<int>): Option<Time> {
    match t case None => None case Some(clock) => Some(Time(clock, None))
  }

  /** The value a PATCH leaves: the submitted one if there is one. */
  function Merged(submitted: Option<Option<Time>>, was: Option<int>): Option<Time> {
    if submitted.Some? then submitted.value else ReadBack(was)
  }

  /** Comparing a time with an offset to one without raises. */
  datatype RangeCheck = Valid | EndsFirst | Incomparable

  /** `_time_range_is_valid`: instants are compared, or clock readings when neither time has an offset. */
  function CheckRange(startedAt: Option<Time>, endedAt: Option<Time>): RangeCheck {
    if startedAt.None? || endedAt.None? then Valid
    else
      var (s, e) := (startedAt.value, endedAt.value);
      if s.offset.Some? != e.offset.Some? then Incomparable
      else if e.clock - e.offset.GetOr(0) >= s.clock - s.offset.GetOr(0) then Valid
      else EndsFirst
  }

  /** Exactly which ranges are accepted: open ones, and those of two like times whose end is no earlier, offsets considered. */
  lemma RangeAcceptedIff(startedAt: Option<Time>, endedAt: Option<Time>)
    ensures CheckRange(startedAt, endedAt) == Valid <==>
      match (startedAt, endedAt)
      case (Some(Time(s, None)), Some(Time(e, None))) => s <= e
      case (Some(Time(s, Some(so))), Some(Time(e, Some(eo)))) => s + eo <= e + so
      case (Some(_), Some(_)) => false
      case _ => true
  {
  }

  /** The stored range does not end before it starts. */
  predicate InOrder(startedAt: Option<int>, endedAt: Option<int>) {
    startedAt.Some? && endedAt.Some? ==> startedAt.value <= endedAt.value
  }

  /** Both times carry the same offset, or none. */
  predicate SameOffset(startedAt: Option<Time>, endedAt: Option<Time>) {
    startedAt.Some? && endedAt.Some? ==> startedAt.value.offset == endedAt.value.offset
  }

  /** Exactly when an accepted range is stored in order: always on Postgres, by the clock readings on SQLite. */
  lemma StoredInOrderIff(dialect: Dialect, startedAt: Option<Time>, endedAt: Option<Time>)
    requires CheckRange(startedAt, endedAt) == Valid
    ensures InOrder(StoredTime(dialect, startedAt), StoredTime(dialect, endedAt)) <==>
            (dialect.Postgres? || InOrder(StoredTime(Sqlite, startedAt), StoredTime(Sqlite, endedAt)))
    ensures startedAt.Some? && endedAt.Some? ==>
            (InOrder(StoredTime(Sqlite, startedAt), StoredTime(Sqlite, endedAt))
             <==> endedAt.value.clock >= startedAt.value.clock)
  {
  }

  /** What a caller can check beforehand. */
  lemma SameOffsetKeepsOrder(dialect: Dialect, startedAt: Option<Time>, endedAt: Option<Time>)
    requires CheckRange(startedAt, endedAt) == Valid && SameOffset(startedAt, endedAt)
    ensures InOrder(StoredTime(dialect, startedAt), StoredTime(dialect, endedAt))
  {
  }

  /** What is stored of a time with an offset: on SQLite its clock, on Postgres the reading of the session's clock at that instant. */
  lemma StoredIs(zone: int, clock: int, offset: int)
    ensures Stored(Sqlite, Time(clock, Some(offset))) == Stored(Sqlite, Time(clock, None)) == clock
    ensures Stored(Postgres(zone), Time(clock, Some(offset))) - zone == clock - offset
    ensures Stored(Postgres(zone), Time(clock, None)) == clock
  {
  }

  lemma ReadBackIsStored(dialect: Dialect, t: Option<int>)
    ensures StoredTime(dialect, ReadBack(t)) == t
  {
  }
}
