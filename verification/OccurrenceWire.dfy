/** What a VEVENT says for a JSCalendar property and the other way round, in the names of RFC 5545 and RFC 8984. */
module OccurrenceWire {
  import opened Wrappers
  import opened RecurrenceOverrides

  /** JSON values that are false in Python. */
  const FALSE_VALUES := {Null, Text(""), Number(0), Flag(false), Places([])}

  /** STATUS, TRANSP and CLASS (RFC 5545 section 3.8), and the names JSCalendar gives their values. */
  const STATUS_NAMES := [("CONFIRMED", "confirmed"), ("CANCELLED", "cancelled"), ("TENTATIVE", "tentative")]
  const TRANSP_NAMES := [("OPAQUE", "busy"), ("TRANSPARENT", "free")]
  const CLASS_NAMES := [("PUBLIC", "public"), ("PRIVATE", "private"), ("CONFIDENTIAL", "secret")]

  /** The name the table gives the token, or else the given one. */
  ghost predicate Named(table: seq<(string, string)>, token: string, name: string, other: string) {
    (token, name) in table || (name == other && forall e <- table :: e.0 != token)
  }

  ghost predicate Spelled(table: seq<(string, string)>, value: Value, token: string, other: string) {
    || (exists e <- table :: value == Text(e.1) && token == e.0)
    || (token == other && forall e <- table :: value != Text(e.1))
  }

  ghost predicate ReadsStatus(token: Option<string>, name: string) {
    Named(STATUS_NAMES, if token.Some? then token.value else "", name, "confirmed")
  }

  ghost predicate ReadsTransp(token: Option<string>, name: string) {
    Named(TRANSP_NAMES, if token.Some? then token.value else "", name, "busy")
  }

  ghost predicate ReadsClass(token: Option<string>, name: string) {
    Named(CLASS_NAMES, if token.Some? then token.value else "", name, "")
  }

  ghost predicate IsStatus(value: Value, token: string) {
    Spelled(STATUS_NAMES, value, token, "CONFIRMED")
  }

  ghost predicate IsTransp(value: Value, token: string) {
    Spelled(TRANSP_NAMES, value, token, "OPAQUE")
  }

  ghost predicate IsClass(value: Value, token: string) {
    Spelled(CLASS_NAMES, value, token, "PUBLIC")
  }

  /** The local time a DATE or DATE-TIME stands for: a day is 24 hours, begun at midnight. */
  function Seconds(w: When): int {
    match w
    case Date(day) => day * 24 * 60 * 60
    case DateTime(t, _) => t
  }

  /** What is read from a VEVENT, property by property. */
  lemma {:induction false} ReadExactly(v: Timed)
    ensures ExtractProps(v).Some? && ExtractProps(v).value.Keys == TRACKED
    ensures var props, start := ExtractProps(v).value, v.times.dtstart.value;
            && props[Start] == At(Seconds(start)) && props[ShowWithoutTime] == Flag(start.Date?)
            && props[TimeZone] == (if start.DateTime? && start.zone.Some? && start.zone != Some("") then
                                     Text(start.zone.value)
                                   else Null)
            && props[Duration] == Span(match (v.times.duration, v.times.dtend)
                                       case (Some(seconds), _) => seconds
                                       case (None, Some(end)) => Seconds(end) - Seconds(start)
                                       case (None, None) => 0)
    ensures var props := ExtractProps(v).value;
            && props[Title] == (if v.summary.Some? then Text(v.summary.value) else Text(""))
            && props[Description] == (if v.description.Some? then Text(v.description.value) else Null)
            && props[Priority] == (if v.priority.Some? then Number(v.priority.value) else Null)
            && props[Locations] == (if v.location.Some? && v.location != Some("") then
                                      Places([Place("loc1", v.location, "")])
                                    else Null)
  {
    assert Start in TRACKED && Duration in TRACKED && TimeZone in TRACKED && ShowWithoutTime in TRACKED;
    assert Title in TRACKED && Description in TRACKED && Priority in TRACKED && Locations in TRACKED;
  }

  lemma {:induction false} StatusIs(token: Option<string>, value: Value)
    ensures ReadsStatus(token, StatusOf(token))
    ensures IsStatus(value, StatusToken(value))
  {
    assert STATUS_NAMES[0] in STATUS_NAMES && STATUS_NAMES[1] in STATUS_NAMES && STATUS_NAMES[2] in STATUS_NAMES;
  }

  lemma {:induction false} TranspIs(token: Option<string>, value: Value)
    ensures ReadsTransp(token, FreeBusyOf(token))
    ensures IsTransp(value, TranspToken(value))
  {
    assert TRANSP_NAMES[0] in TRANSP_NAMES && TRANSP_NAMES[1] in TRANSP_NAMES;
  }

  lemma {:induction false} ClassIs(token: Option<string>, value: Value)
    ensures var read := PrivacyOf(token);
            && (read.Null? || read.Text?)
            && ReadsClass(token, if read.Text? then read.s else "")
    ensures IsClass(value, ClassToken(value))
  {
    assert CLASS_NAMES[0] in CLASS_NAMES && CLASS_NAMES[1] in CLASS_NAMES && CLASS_NAMES[2] in CLASS_NAMES;
  }

  lemma {:induction false} TokensAre(v: Timed)
    ensures var props := ExtractProps(v).value;
            && Status in props && props[Status] == Text(StatusOf(v.status))
            && FreeBusyStatus in props && props[FreeBusyStatus] == Text(FreeBusyOf(v.transp))
            && Privacy in props && props[Privacy] == PrivacyOf(v.class_)
  {
    assert Status in TRACKED && FreeBusyStatus in TRACKED && Privacy in TRACKED;
  }

  lemma {:induction false} TokensRead(v: Timed)
    ensures var props := ExtractProps(v).value;
            && Status in props && FreeBusyStatus in props && Privacy in props
            && props[Status].Text? && props[FreeBusyStatus].Text?
            && ReadsStatus(v.status, props[Status].s)
            && ReadsTransp(v.transp, props[FreeBusyStatus].s)
            && (props[Privacy].Null? || props[Privacy].Text?)
            && ReadsClass(v.class_, if props[Privacy].Text? then props[Privacy].s else "")
  {
    TokensAre(v);
    StatusIs(v.status, Null);
    TranspIs(v.transp, Null);
    ClassIs(v.class_, Null);
  }

  /** What the occurrence is to be like: as the patch says, else at its own time, else as the master. */
  function Wanted(v: Timed, key: int, patch: TypedPatch, p: Prop): Value
    requires p in TRACKED
  {
    if p in patch then patch[p] else if p == Start then At(key) else ExtractProps(v).value[p]
  }

  lemma {:induction false} WantedIsMerged(v: Timed, key: int, patch: TypedPatch, p: Prop)
    requires p in TRACKED
    ensures Merged(v, key, patch)[p] == Wanted(v, key, patch, p)
  {
  }

  /** Its UID, and the time it replaces: a date when the master has one, else a local time in the master's zone. */
  lemma {:induction false} WrittenIdentity(v: Timed, key: int, patch: TypedPatch)
    ensures var w, start := Write(v, key, patch), v.times.dtstart.value;
            && w.uid == v.uid && w.recurrenceId.Some?
            && match w.recurrenceId.value
               case Date(day) => start.Date? && day * 86400 <= key < (day + 1) * 86400
               case DateTime(t, zone) =>
                 && start.DateTime? && t == key
                 && zone == if start.zone == Some("") then None else start.zone
  {
  }

  /** Whole days when it is shown without a time, else a start and an end in one zone. */
  predicate SayTimes(t: Times, start: int, seconds: int, zone: Value, withoutTime: Value) {
    && t.duration == None
    && match (t.dtstart, t.dtend)
       case (Some(Date(day)), Some(Date(end))) =>
         && withoutTime !in FALSE_VALUES
         && day * 86400 <= start < (day + 1) * 86400
         && (end - day) * 86400 <= seconds < (end - day + 1) * 86400
       case (Some(DateTime(from, zoneFrom)), Some(DateTime(to, zoneTo))) =>
         && withoutTime in FALSE_VALUES
         && from == start && to == start + seconds && zoneFrom == zoneTo
         && (if zone in FALSE_VALUES then zoneFrom == None else zoneFrom.Some? && zone == Text(zoneFrom.value))
       case _ => false
  }

  /** Its times, as wanted. */
  lemma {:induction false} WrittenTimes(v: Timed, key: int, patch: TypedPatch)
    ensures Wanted(v, key, patch, Start).At? && Wanted(v, key, patch, Duration).Span?
    ensures SayTimes(Write(v, key, patch).times, Wanted(v, key, patch, Start).t,
                     Wanted(v, key, patch, Duration).seconds, Wanted(v, key, patch, TimeZone),
                     Wanted(v, key, patch, ShowWithoutTime))
  {
    assert Start in TRACKED && Duration in TRACKED && TimeZone in TRACKED && ShowWithoutTime in TRACKED;
    WantedIsMerged(v, key, patch, Start);
    WantedIsMerged(v, key, patch, Duration);
    WantedIsMerged(v, key, patch, TimeZone);
    WantedIsMerged(v, key, patch, ShowWithoutTime);
  }

  const TIME_PROPS := {Start, Duration, TimeZone, ShowWithoutTime}

  /** A patch of any component writes its times anew when it names any of them, and what it does not name of them is as
      it was read; it cannot name any, but for a start, before there is one. */
  lemma {:induction false} PatchedTimes(v: Vevent, props: TypedPatch)
    ensures CanApply(v, props) <==> v.times.dtstart.Some? || Start in props || props.Keys !! TIME_PROPS
    ensures props.Keys !! TIME_PROPS ==> Applied(v, props).times == v.times
    ensures v.times.dtstart.Some? && !(props.Keys !! TIME_PROPS) ==>
              var now := ExtractProps(v).value + props;
              && TIME_PROPS <= now.Keys && now[Start].At? && now[Duration].Span?
              && SayTimes(Applied(v, props).times, now[Start].t, now[Duration].seconds, now[TimeZone],
                          now[ShowWithoutTime])
  {
    assert TIME_PROPS <= TRACKED;
    NamesExactly(props);
  }

  lemma {:induction false} NamesExactly(props: Patch)
    ensures NamesTimes(props) <==> !(props.Keys !! TIME_PROPS)
  {
    assert forall p <- TIME_PROPS :: p in props ==> p in props.Keys * TIME_PROPS;
    assert forall p <- props.Keys * TIME_PROPS :: p in props && p in TIME_PROPS;
  }

  /** A patch of any component leaves what it does not name. */
  lemma {:induction false} OthersAreLeft(v: Vevent, props: TypedPatch)
    requires CanApply(v, props)
    ensures var w := Applied(v, props);
            && w.uid == v.uid && w.recurrenceId == v.recurrenceId
            && (Title !in props ==> w.summary == v.summary)
            && (Description !in props ==> w.description == v.description)
            && (Status !in props ==> w.status == v.status) && (FreeBusyStatus !in props ==> w.transp == v.transp)
            && (Privacy !in props ==> w.class_ == v.class_) && (Priority !in props ==> w.priority == v.priority)
            && (Locations !in props ==> w.location == v.location)
  {
  }

  /** Its texts and priority. */
  lemma {:induction false} WrittenTexts(v: Timed, key: int, patch: TypedPatch)
    ensures var w, title := Write(v, key, patch), Wanted(v, key, patch, Title);
            w.summary == if title == Null then Some("") else Some(title.s)
    ensures var w, text := Write(v, key, patch), Wanted(v, key, patch, Description);
            if text in FALSE_VALUES then w.description == None else text.Text? && w.description == Some(text.s)
    ensures var w, priority := Write(v, key, patch), Wanted(v, key, patch, Priority);
            if priority == Null then w.priority == None else priority.Number? && w.priority == Some(priority.n)
  {
    assert Title in TRACKED && Description in TRACKED && Priority in TRACKED;
    WantedIsMerged(v, key, patch, Title);
    WantedIsMerged(v, key, patch, Description);
    WantedIsMerged(v, key, patch, Priority);
  }

  /** Its place: the name of the first, if there is one and it has one. */
  lemma {:induction false} WrittenPlace(v: Timed, key: int, patch: TypedPatch)
    ensures var w, places := Write(v, key, patch), Wanted(v, key, patch, Locations);
            w.location == if places in FALSE_VALUES || places.places[0].name == Some("") then None
                          else places.places[0].name
  {
    assert Locations in TRACKED;
    WantedIsMerged(v, key, patch, Locations);
  }

  lemma {:induction false} StatusWritten(v: Timed, key: int, patch: TypedPatch)
    ensures Write(v, key, patch).status == Some(StatusToken(Wanted(v, key, patch, Status)))
    ensures Write(v, key, patch).transp == Some(TranspToken(Wanted(v, key, patch, FreeBusyStatus)))
    ensures Write(v, key, patch).class_ == if Wanted(v, key, patch, Privacy) in FALSE_VALUES then None
                                           else Some(ClassToken(Wanted(v, key, patch, Privacy)))
  {
    assert Status in TRACKED && FreeBusyStatus in TRACKED && Privacy in TRACKED;
    WantedIsMerged(v, key, patch, Status);
    WantedIsMerged(v, key, patch, FreeBusyStatus);
    WantedIsMerged(v, key, patch, Privacy);
  }

  /** Its STATUS, TRANSP and CLASS. */
  lemma {:induction false} WrittenTokens(v: Timed, key: int, patch: TypedPatch)
    ensures var w := Write(v, key, patch);
            && w.status.Some? && IsStatus(Wanted(v, key, patch, Status), w.status.value)
            && w.transp.Some? && IsTransp(Wanted(v, key, patch, FreeBusyStatus), w.transp.value)
            && if Wanted(v, key, patch, Privacy) in FALSE_VALUES then w.class_ == None
               else w.class_.Some? && IsClass(Wanted(v, key, patch, Privacy), w.class_.value)
  {
    StatusWritten(v, key, patch);
    StatusIs(None, Wanted(v, key, patch, Status));
    TranspIs(None, Wanted(v, key, patch, FreeBusyStatus));
    ClassIs(None, Wanted(v, key, patch, Privacy));
  }
}
