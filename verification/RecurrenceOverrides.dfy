/**
  Single occurrences of a recurring event: written as whole VEVENTs, read back as patches against the master.

  A VEVENT is taken as a record of the properties this mapping reads and writes. Local times are seconds, in the zone
  that goes with them; parsing dates, durations and zones is the library's. A zone change between a RECURRENCE-ID and
  the master, which the writer never causes, is a parameter.
 */
module RecurrenceOverrides {
  import opened Wrappers

  /** A JSON value, as the properties below use it. A place may carry more than its name. */
  datatype Value = Null | Text(s: string) | Number(n: int) | Flag(b: bool) | At(t: int) | Span(seconds: int)
                 | Places(places: seq<Place>)

  datatype Place = Place(id: string, name: Option<string>, more: string)

  datatype Prop = Title | Description | Start | Duration | TimeZone | ShowWithoutTime | Status | FreeBusyStatus
                | Priority
                | Privacy | Locations | Untracked(name: string)

  const TRACKED: set<Prop> := {Title, Description, Start, Duration, TimeZone, ShowWithoutTime, Status, FreeBusyStatus,
                               Priority, Privacy, Locations}

  type Patch = map<Prop, Value>

  /** What the writer can take without raising. */
  predicate WellTyped(props: Patch) {
    && (Title in props ==> props[Title].Null? || props[Title].Text?)
    && (Description in props ==> props[Description].Null? || props[Description].Text?)
    && (Start in props ==> props[Start].At?)
    && (Duration in props ==> props[Duration].Span?)
    && (TimeZone in props ==> props[TimeZone].Null? || props[TimeZone].Text?)
    && (Priority in props ==> props[Priority].Null? || props[Priority].Number?)
    && (Locations in props ==> props[Locations].Null? || props[Locations].Places?)
  }

  type TypedPatch = p: Patch | WellTyped(p) witness map[]

  const EXCLUDED: TypedPatch := map[Untracked("excluded") := Flag(true)]

  const DAY: int := 86400

  /** A DATE, counted in days, or a DATE-TIME with its zone if any. */
  datatype When = Date(day: int) | DateTime(t: int, zone: Option<string>)

  datatype Times = Times(dtstart: Option<When>, dtend: Option<When>, duration: Option<int>)

  /** STATUS, TRANSP and CLASS as they are looked up, in upper case. */
  datatype Vevent = Vevent(
    uid: string,
    recurrenceId: Option<When>,
    times: Times,
    summary: Option<string>,
    description: Option<string>,
    status: Option<string>,
    transp: Option<string>,
    class_: Option<string>,
    priority: Option<int>,
    location: Option<string>)

  /** A VEVENT that can be read: one with a DTSTART. */
  type Timed = v: Vevent | v.times.dtstart.Some?
    witness Vevent("", None, Times(Some(Date(0)), None, None), None, None, None, None, None, None, None)

  predicate Truthy(v: Value) {
    match v
    case Null => false
    case Text(s) => s != []
    case Number(n) => n != 0
    case Flag(b) => b
    case Places(places) => places != []
    case _ => true
  }

  // ----- reading a VEVENT -----

  function LocalStart(w: When): int {
    if w.Date? then w.day * DAY else w.t
  }

  function Zone(w: When): Value {
    if w.DateTime? && w.zone.Some? && w.zone.value != [] then Text(w.zone.value) else Null
  }

  /** DURATION if there is one, else to DTEND, else nothing. */
  function Length(t: Times): int
    requires t.dtstart.Some?
  {
    if t.duration.Some? then t.duration.value
    else if t.dtend.Some? then LocalStart(t.dtend.value) - LocalStart(t.dtstart.value)
    else 0
  }

  function FromText(t: Option<string>): Value {
    if t.None? then Null else Text(t.value)
  }

  function StatusOf(token: Option<string>): string {
    if token == Some("CANCELLED") then "cancelled" else if token == Some("TENTATIVE") then "tentative" else "confirmed"
  }

  function FreeBusyOf(token: Option<string>): string {
    if token == Some("TRANSPARENT") then "free" else "busy"
  }

  function PrivacyOf(token: Option<string>): Value {
    if token == Some("PUBLIC") then Text("public")
    else if token == Some("PRIVATE") then Text("private")
    else if token == Some("CONFIDENTIAL") then Text("secret")
    else Null
  }

  function PlacesOf(location: Option<string>): Value {
    if location.None? || location.value == [] then Null else Places([Place("loc1", location, "")])
  }

  function ReadProp(v: Vevent, p: Prop): Value
    requires v.times.dtstart.Some? && p in TRACKED
  {
    match p
    case Title => Text(if v.summary.Some? then v.summary.value else "")
    case Description => FromText(v.description)
    case Start => At(LocalStart(v.times.dtstart.value))
    case Duration => Span(Length(v.times))
    case TimeZone => Zone(v.times.dtstart.value)
    case ShowWithoutTime => Flag(v.times.dtstart.value.Date?)
    case Status => Text(StatusOf(v.status))
    case FreeBusyStatus => Text(FreeBusyOf(v.transp))
    case Priority => if v.priority.Some? then Number(v.priority.value) else Null
    case Privacy => PrivacyOf(v.class_)
    case Locations => PlacesOf(v.location)
    case Untracked(_) => Null
  }

  /** None where the code raises. */
  function ExtractProps(v: Vevent): Option<Patch> {
    if v.times.dtstart.None? then None else Some(map p | p in TRACKED :: ReadProp(v, p))
  }

  // ----- writing a VEVENT -----

  function ToIcalValue(t: int, zone: Value, withoutTime: bool): When {
    if withoutTime then Date(t / DAY)
    else DateTime(t, if zone.Text? && zone.s != [] then Some(zone.s) else None)
  }

  /** Python's addition: a date takes whole days. */
  function Later(w: When, seconds: int): When {
    if w.Date? then Date(w.day + seconds / DAY) else w.(t := w.t + seconds)
  }

  function StatusToken(v: Value): string {
    if v == Text("cancelled") then "CANCELLED" else if v == Text("tentative") then "TENTATIVE" else "CONFIRMED"
  }

  function TranspToken(v: Value): string {
    if v == Text("free") then "TRANSPARENT" else "OPAQUE"
  }

  function ClassToken(v: Value): string {
    if v == Text("private") then "PRIVATE" else if v == Text("secret") then "CONFIDENTIAL" else "PUBLIC"
  }

  function FirstPlace(v: Value): Option<string> {
    if v.Places? && v.places != [] && v.places[0].name.Some? && v.places[0].name.value != []
    then v.places[0].name else None
  }

  /** A component that is changed in place. */
  class Component {
    const uid: string
    const recurrenceId: Option<When>
    var times: Times
    var summary: Option<string>
    var description: Option<string>
    var status: Option<string>
    var transp: Option<string>
    var class_: Option<string>
    var priority: Option<int>
    var location: Option<string>

    constructor (uid: string, recurrenceId: Option<When>)
      ensures State() == Blank(uid, recurrenceId)
    {
      this.uid, this.recurrenceId := uid, recurrenceId;
      times, summary, description := Times(None, None, None), None, None;
      status, transp, class_, priority, location := None, None, None, None, None;
    }

    function State(): Vevent
      reads this
    {
      Vevent(uid, recurrenceId, times, summary, description, status, transp, class_, priority, location)
    }

    method ApplyDatetimeCluster(props: Patch) returns (ok: bool)
      requires WellTyped(props)
      modifies this`times
      ensures ok <==> Start in props || old(times.dtstart.Some?)
      ensures times == if ok then NewTimes(old(times), props) else old(times)
    {
      if Start !in props && times.dtstart.None? {
        return false;
      }
      var was := times.dtstart;
      var start := if Start in props then props[Start].t else LocalStart(was.value);
      var zone := if TimeZone in props then props[TimeZone] else if was.Some? then Zone(was.value) else Null;
      var withoutTime :=
        if ShowWithoutTime in props then Truthy(props[ShowWithoutTime]) else was.Some? && was.value.Date?;
      var seconds := if Duration in props then props[Duration].seconds else if was.Some? then Length(times) else 0;
      times := Times(None, None, None);
      var startValue := ToIcalValue(start, zone, withoutTime);
      times := times.(dtstart := Some(startValue));
      times := times.(dtend := Some(Later(startValue, seconds)));
      return true;
    }

    method ApplyTexts(props: Patch)
      requires WellTyped(props)
      modifies this`summary, this`description
      ensures summary == NewSummary(old(summary), props) && description == NewDescription(old(description), props)
    {
      if Title in props {
        summary := Some(if props[Title].Text? then props[Title].s else "");
      }
      if Description in props {
        description := None;
        if Truthy(props[Description]) {
          description := Some(props[Description].s);
        }
      }
    }

    method ApplyTokens(props: Patch)
      modifies this`status, this`transp, this`class_
      ensures status == NewStatus(old(status), props) && transp == NewTransp(old(transp), props)
      ensures class_ == NewClass(old(class_), props)
    {
      if Status in props {
        status := Some(StatusToken(props[Status]));
      }
      if FreeBusyStatus in props {
        transp := Some(TranspToken(props[FreeBusyStatus]));
      }
      if Privacy in props {
        class_ := None;
        if Truthy(props[Privacy]) {
          class_ := Some(ClassToken(props[Privacy]));
        }
      }
    }

    method ApplyPriorityAndPlace(props: Patch)
      requires WellTyped(props)
      modifies this`priority, this`location
      ensures priority == NewPriority(old(priority), props) && location == NewLocation(old(location), props)
    {
      if Priority in props {
        priority := None;
        if props[Priority].Number? {
          priority := Some(props[Priority].n);
        }
      }
      if Locations in props {
        location := FirstPlace(props[Locations]);
      }
    }

    method ApplyJscalendarProps(props: Patch) returns (ok: bool)
      requires WellTyped(props)
      modifies this
      ensures ok <==> CanApply(old(State()), props)
      ensures ok ==> State() == Applied(old(State()), props)
    {
      ApplyTexts(props);
      if NamesTimes(props) {
        ok := ApplyDatetimeCluster(props);
        if !ok {
          return;
        }
      }
      ApplyTokens(props);
      ApplyPriorityAndPlace(props);
      ok := true;
    }
  }

  function NewSummary(was: Option<string>, props: Patch): Option<string> {
    if Title !in props then was else Some(if props[Title].Text? then props[Title].s else "")
  }

  function NewDescription(was: Option<string>, props: Patch): Option<string>
    requires WellTyped(props)
  {
    if Description !in props then was else if Truthy(props[Description]) then Some(props[Description].s) else None
  }

  function NewStatus(was: Option<string>, props: Patch): Option<string> {
    if Status in props then Some(StatusToken(props[Status])) else was
  }

  function NewTransp(was: Option<string>, props: Patch): Option<string> {
    if FreeBusyStatus in props then Some(TranspToken(props[FreeBusyStatus])) else was
  }

  function NewClass(was: Option<string>, props: Patch): Option<string> {
    if Privacy !in props then was else if Truthy(props[Privacy]) then Some(ClassToken(props[Privacy])) else None
  }

  function NewPriority(was: Option<int>, props: Patch): Option<int> {
    if Priority !in props then was else if props[Priority].Number? then Some(props[Priority].n) else None
  }

  function NewLocation(was: Option<string>, props: Patch): Option<string> {
    if Locations in props then FirstPlace(props[Locations]) else was
  }

  function Blank(uid: string, recurrenceId: Option<When>): Vevent {
    Vevent(uid, recurrenceId, Times(None, None, None), None, None, None, None, None, None, None)
  }

  /** A component cannot be given a length or a zone before it has a start. */
  predicate CanApply(v: Vevent, props: Patch) {
    NamesTimes(props) ==> Start in props || v.times.dtstart.Some?
  }

  predicate NamesTimes(props: Patch) {
    Start in props || Duration in props || TimeZone in props || ShowWithoutTime in props
  }

  /** The times that hold after a patch: what it does not name stays, as seen through the mapping. */
  function NewTimes(was: Times, props: Patch): Times
    requires WellTyped(props) && (Start in props || was.dtstart.Some?)
  {
    var start := if Start in props then props[Start].t else LocalStart(was.dtstart.value);
    var zone := if TimeZone in props then props[TimeZone]
                else if was.dtstart.Some? then Zone(was.dtstart.value)
                else Null;
    var withoutTime := if ShowWithoutTime in props then Truthy(props[ShowWithoutTime])
                       else was.dtstart.Some? && was.dtstart.value.Date?;
    var seconds := if Duration in props then props[Duration].seconds else if was.dtstart.Some? then Length(was) else 0;
    var startValue := ToIcalValue(start, zone, withoutTime);
    Times(Some(startValue), Some(Later(startValue, seconds)), None)
  }

  function Applied(v: Vevent, props: Patch): Vevent
    requires WellTyped(props) && CanApply(v, props)
  {
    v.(times := if NamesTimes(props) then NewTimes(v.times, props) else v.times,
       summary := NewSummary(v.summary, props), description := NewDescription(v.description, props),
       status := NewStatus(v.status, props), transp := NewTransp(v.transp, props), class_ := NewClass(v.class_, props),
       priority := NewPriority(v.priority, props), location := NewLocation(v.location, props))
  }

  // ----- what survives writing and reading -----

  /** A property's value after it has been written and read, given the others it was written with. */
  function NormalProp(props: Patch, p: Prop): Value
    requires TRACKED <= props.Keys && WellTyped(props) && p in TRACKED
  {
    var allDay := Truthy(props[ShowWithoutTime]);
    match p
    case Title => if props[Title].Null? then Text("") else props[Title]
    case Description => if Truthy(props[Description]) then props[Description] else Null
    case Start => if allDay then At(props[Start].t / DAY * DAY) else props[Start]
    case Duration => if allDay then Span(props[Duration].seconds / DAY * DAY) else props[Duration]
    case TimeZone => if !allDay && Truthy(props[TimeZone]) then props[TimeZone] else Null
    case ShowWithoutTime => Flag(allDay)
    case Status => if props[Status] in {Text("cancelled"), Text("tentative")} then props[Status] else Text("confirmed")
    case FreeBusyStatus => if props[FreeBusyStatus] == Text("free") then Text("free") else Text("busy")
    case Priority => props[Priority]
    case Privacy =>
      if !Truthy(props[Privacy]) then Null
      else if props[Privacy] in {Text("private"), Text("secret")} then props[Privacy] else Text("public")
    case Locations =>
      if FirstPlace(props[Locations]).None? then Null else Places([Place("loc1", FirstPlace(props[Locations]), "")])
    case Untracked(_) => Null
  }

  function Normal(props: Patch): Patch
    requires TRACKED <= props.Keys && WellTyped(props)
  {
    map p | p in TRACKED :: NormalProp(props, p)
  }

  lemma {:induction false} TimesReadNormal(was: Times, props: Patch)
    requires TRACKED <= props.Keys && WellTyped(props)
    ensures var t := NewTimes(was, props);
            && At(LocalStart(t.dtstart.value)) == NormalProp(props, Start)
            && Span(Length(t)) == NormalProp(props, Duration)
            && Zone(t.dtstart.value) == NormalProp(props, TimeZone)
            && Flag(t.dtstart.value.Date?) == NormalProp(props, ShowWithoutTime)
  {
    assert {Start, Duration, TimeZone, ShowWithoutTime} <= TRACKED;
  }

  lemma {:induction false} PropReadsNormal(v: Vevent, props: Patch, p: Prop)
    requires TRACKED <= props.Keys && WellTyped(props) && p in TRACKED
    ensures ReadProp(Applied(v, props), p) == NormalProp(props, p)
  {
    assert p in props && Start in TRACKED;
    TimesReadNormal(v.times, props);
  }

  /** Reading what was written gives each property's normal form, whatever the component held before. */
  lemma {:induction false} WrittenReadsNormal(v: Vevent, props: Patch)
    requires TRACKED <= props.Keys && WellTyped(props)
    ensures ExtractProps(Applied(v, props)) == Some(Normal(props))
  {
    var w := Applied(v, props);
    assert Start in TRACKED;
    forall p | p in TRACKED ensures ReadProp(w, p) == NormalProp(props, p) {
      PropReadsNormal(v, props, p);
    }
    assert ExtractProps(w).value == Normal(props);
  }

  // ----- the overrides of a calendar object -----

  /** The time an occurrence is filed under, in the master's zone; `convert` takes a time to it from another zone. */
  function RecurrenceKey(w: When, masterZone: Value, convert: When -> int): int {
    if w.Date? then w.day * DAY else if Zone(w) == masterZone then w.t else convert(w)
  }

  function MasterProps(v: Timed): (props: TypedPatch)
    ensures props.Keys == TRACKED
  {
    ExtractProps(v).value
  }

  /** What an occurrence looks like if nothing was changed. */
  function Baseline(master: Timed, key: int): (props: TypedPatch)
    ensures props.Keys == TRACKED
  {
    assert Start in TRACKED;
    MasterProps(master)[Start := At(key)]
  }

  function Minimal(baseline: Patch, props: Patch): Patch {
    map p | p in props && (p !in baseline || baseline[p] != props[p]) :: props[p]
  }

  /** Key and patch of an override component; None for one that is skipped. */
  function OverridePatch(v: Vevent, master: Timed, convert: When -> int): Option<(int, Patch)> {
    if v.recurrenceId.None? || v.times.dtstart.None? then None
    else
      var key := RecurrenceKey(v.recurrenceId.value, Zone(master.times.dtstart.value), convert);
      Some((key, Minimal(Baseline(master, key), ExtractProps(v).value)))
  }

  function OverridePatches(master: Timed, convert: When -> int): Vevent -> Option<(int, Patch)> {
    v => OverridePatch(v, master, convert)
  }

  function KeyFor(zone: Value, convert: When -> int): When -> int {
    w => RecurrenceKey(w, zone, convert)
  }

  function ReadExdates(exdates: seq<When>, keyOf: When -> int): map<int, Patch> {
    if exdates == [] then map[]
    else
      var n := |exdates| - 1;
      ReadExdates(exdates[..n], keyOf)[keyOf(exdates[n]) := EXCLUDED]
  }

  function ReadOthers(found: map<int, Patch>, others: seq<Vevent>, read: Vevent -> Option<(int, Patch)>)
    : map<int, Patch>
  {
    if others == [] then found
    else
      var n := |others| - 1;
      var before, entry := ReadOthers(found, others[..n], read), read(others[n]);
      if entry.None? then before else before[entry.value.0 := entry.value.1]
  }

  /** The master's properties, this occurrence's own start, and the patch, later ones winning. */
  function Merged(v: Timed, key: int, patch: TypedPatch): (merged: TypedPatch)
    ensures TRACKED <= merged.Keys
  {
    Baseline(v, key) + patch
  }

  function RecurrenceId(v: Timed, key: int): When {
    ToIcalValue(key, Zone(v.times.dtstart.value), v.times.dtstart.value.Date?)
  }

  function Write(v: Timed, key: int, patch: TypedPatch): Vevent {
    Applied(Blank(v.uid, Some(RecurrenceId(v, key))), Merged(v, key, patch))
  }

  function WriteFor(v: Timed): (int, TypedPatch) -> Vevent {
    (key: int, patch: TypedPatch) => Write(v, key, patch)
  }

  type Overrides = seq<(int, TypedPatch)>

  function IdFor(v: Timed): int -> When {
    key => RecurrenceId(v, key)
  }

  function Exclusions(overrides: Overrides, id: int -> When): seq<When> {
    if overrides == [] then []
    else
      var n := |overrides| - 1;
      Exclusions(overrides[..n], id) + (if overrides[n].1 == EXCLUDED then [id(overrides[n].0)] else [])
  }

  function Written(overrides: Overrides, write: (int, TypedPatch) -> Vevent): seq<Vevent> {
    if overrides == [] then []
    else
      var n := |overrides| - 1;
      Written(overrides[..n], write)
      + (if overrides[n].1 == EXCLUDED then [] else [write(overrides[n].0, overrides[n].1)])
  }

  lemma {:induction false} OneMoreWritten(overrides: Overrides, i: nat, id: int -> When,
                                          write: (int, TypedPatch) -> Vevent)
    requires i < |overrides|
    ensures overrides[i].1 == EXCLUDED ==>
              && Exclusions(overrides[..i + 1], id) == Exclusions(overrides[..i], id) + [id(overrides[i].0)]
              && Written(overrides[..i + 1], write) == Written(overrides[..i], write)
    ensures overrides[i].1 != EXCLUDED ==>
              && Exclusions(overrides[..i + 1], id) == Exclusions(overrides[..i], id)
              && Written(overrides[..i + 1], write)
                 == Written(overrides[..i], write) + [write(overrides[i].0, overrides[i].1)]
  {
    assert overrides[..i + 1][..i] == overrides[..i];
  }

  predicate IsOverrideOf(v: Vevent, master: Vevent) {
    v.uid == master.uid && v.recurrenceId.Some?
  }

  /** Components that are not overrides of this master. */
  function Strays(master: Vevent, others: seq<Vevent>): seq<Vevent> {
    if others == [] then []
    else
      var n := |others| - 1;
      Strays(master, others[..n]) + (if IsOverrideOf(others[n], master) then [] else [others[n]])
  }

  class CalendarObject {
    const master: Vevent
    var exdates: seq<When>
    var others: seq<Vevent>

    constructor (master: Vevent, exdates: seq<When>, others: seq<Vevent>)
      ensures this.master == master && this.exdates == exdates && this.others == others
    {
      this.master, this.exdates, this.others := master, exdates, others;
    }

    /** False is the error for a master without DTSTART. */
    method ApplyRecurrenceOverrides(overrides: Overrides) returns (ok: bool)
      modifies this
      ensures ok <==> overrides == [] || master.times.dtstart.Some?
      ensures ok ==> exdates == if overrides == [] then [] else Exclusions(overrides, IdFor(master))
      ensures ok ==> others ==
                         Strays(master, old(others))
                         + if overrides == [] then [] else Written(overrides, WriteFor(master))
    {
      exdates := [];
      RemoveOverrides();
      if overrides == [] {
        return true;
      }
      if master.times.dtstart.None? {
        return false;
      }
      exdates := WriteOverrides(overrides);
      return true;
    }

    method WriteOverrides(overrides: Overrides) returns (excluded: seq<When>)
      requires master.times.dtstart.Some?
      modifies this`others
      ensures excluded == Exclusions(overrides, IdFor(master))
      ensures others == old(others) + Written(overrides, WriteFor(master))
    {
      excluded := [];
      ghost var kept, id, write := others, IdFor(master), WriteFor(master);
      for i := 0 to |overrides|
        invariant excluded == Exclusions(overrides[..i], id)
        invariant others == kept + Written(overrides[..i], write)
      {
        var (key, patch) := overrides[i];
        OneMoreWritten(overrides, i, id, write);
        var recurrenceValue := RecurrenceId(master, key);
        if patch == EXCLUDED {
          excluded := excluded + [recurrenceValue];
        } else {
          var component := BuildOverride(key, patch, recurrenceValue);
          others := others + [component];
        }
      }
      assert overrides[..|overrides|] == overrides;
    }

    method BuildOverride(key: int, patch: TypedPatch, recurrenceValue: When) returns (v: Vevent)
      requires master.times.dtstart.Some? && recurrenceValue == RecurrenceId(master, key)
      ensures v == WriteFor(master)(key, patch)
    {
      var component := new Component(master.uid, Some(recurrenceValue));
      var applied := component.ApplyJscalendarProps(Merged(master, key, patch));
      v := component.State();
    }

    method RemoveOverrides()
      modifies this`others
      ensures others == Strays(master, old(others))
    {
      var kept := [];
      for i := 0 to |others|
        invariant others == old(others)
        invariant kept == Strays(master, others[..i])
      {
        assert others[..i + 1][..i] == others[..i];
        if !(others[i].uid == master.uid && others[i].recurrenceId.Some?) {
          kept := kept + [others[i]];
        }
      }
      assert others[..|others|] == others;
      others := kept;
    }

    method RecurrenceOverrides(convert: When -> int) returns (found: map<int, Patch>)
      requires master.times.dtstart.Some?
      ensures found == Read(master, exdates, others, convert)
    {
      var zone := Zone(master.times.dtstart.value);
      found := map[];
      for i := 0 to |exdates|
        invariant found == ReadExdates(exdates[..i], KeyFor(zone, convert))
      {
        assert exdates[..i + 1][..i] == exdates[..i];
        found := found[RecurrenceKey(exdates[i], zone, convert) := EXCLUDED];
      }
      assert exdates[..|exdates|] == exdates;
      ghost var excluded := found;
      for i := 0 to |others|
        invariant found == ReadOthers(excluded, others[..i], OverridePatches(master, convert))
      {
        assert others[..i + 1][..i] == others[..i];
        var patch := OverridePatch(others[i], master, convert);
        if patch.Some? {
          found := found[patch.value.0 := patch.value.1];
        }
      }
      assert others[..|others|] == others;
    }
  }

  function Read(master: Timed, exdates: seq<When>, others: seq<Vevent>, convert: When -> int): map<int, Patch> {
    ReadOthers(ReadExdates(exdates, KeyFor(Zone(master.times.dtstart.value), convert)), others,
               OverridePatches(master, convert))
  }

  // ----- writing and reading back -----

  /** Occurrences of an all-day event are named by midnights. */
  predicate NaturalKey(v: Timed, key: int) {
    v.times.dtstart.value.Date? ==> key % DAY == 0
  }

  /** The time an override is filed under: its own, or its midnight. */
  function Filed(v: Timed, key: int): int {
    if v.times.dtstart.value.Date? then key / DAY * DAY else key
  }

  function FiledFor(v: Timed): int -> int {
    key => Filed(v, key)
  }

  lemma {:induction false} KeyIsFiled(v: Timed, key: int, convert: When -> int)
    ensures RecurrenceKey(RecurrenceId(v, key), Zone(v.times.dtstart.value), convert) == Filed(v, key)
    ensures NaturalKey(v, Filed(v, key)) && (Filed(v, key) == key <==> NaturalKey(v, key))
  {
  }

  /** The patch an override reads back as: what its normal form changes. */
  function ReadBack(v: Timed, key: int, patch: TypedPatch): Patch {
    Minimal(Baseline(v, Filed(v, key)), Normal(Merged(v, key, patch)))
  }

  function ReadBackFor(v: Timed): (int, TypedPatch) -> Patch {
    (key: int, patch: TypedPatch) => ReadBack(v, key, patch)
  }

  /** Each override that is a patch, where it is filed. */
  function Patched(overrides: Overrides, filed: int -> int, back: (int, TypedPatch) -> Patch): map<int, Patch> {
    if overrides == [] then map[]
    else
      var before, entry := Patched(overrides[..|overrides| - 1], filed, back), overrides[|overrides| - 1];
      if entry.1 == EXCLUDED then before else before[filed(entry.0) := back(entry.0, entry.1)]
  }

  function Excluded(overrides: Overrides, filed: int -> int): map<int, Patch> {
    if overrides == [] then map[]
    else
      var before, entry := Excluded(overrides[..|overrides| - 1], filed), overrides[|overrides| - 1];
      if entry.1 == EXCLUDED then before[filed(entry.0) := EXCLUDED] else before
  }

  predicate NaturalKeys(v: Timed, overrides: Overrides) {
    forall e <- overrides :: NaturalKey(v, e.0)
  }

  lemma {:induction false} ExclusionsRead(overrides: Overrides, id: int -> When, keyOf: When -> int, filed: int -> int)
    requires forall e <- overrides :: keyOf(id(e.0)) == filed(e.0)
    ensures ReadExdates(Exclusions(overrides, id), keyOf) == Excluded(overrides, filed)
  {
    if overrides != [] {
      var n := |overrides| - 1;
      assert overrides[n] in overrides && forall e <- overrides[..n] :: e in overrides;
      ExclusionsRead(overrides[..n], id, keyOf, filed);
      var before := Exclusions(overrides[..n], id);
      if overrides[n].1 == EXCLUDED {
        OneMoreExdate(before, id(overrides[n].0), keyOf);
      } else {
        assert before + [] == before;
      }
    }
  }

  lemma {:induction false} OneMoreExdate(before: seq<When>, w: When, keyOf: When -> int)
    ensures ReadExdates(before + [w], keyOf) == ReadExdates(before, keyOf)[keyOf(w) := EXCLUDED]
  {
    assert (before + [w])[..|before|] == before;
  }

  lemma {:induction false} WrittenReads(v: Timed, key: int, patch: TypedPatch, convert: When -> int)
    ensures OverridePatch(Write(v, key, patch), v, convert) == Some((Filed(v, key), ReadBack(v, key, patch)))
  {
    assert Start in TRACKED;
    KeyIsFiled(v, key, convert);
    WrittenReadsNormal(Blank(v.uid, Some(RecurrenceId(v, key))), Merged(v, key, patch));
  }

  lemma {:induction false} PatchesRead(found: map<int, Patch>, first: seq<Vevent>, overrides: Overrides,
                                       write: (int, TypedPatch) -> Vevent, read: Vevent -> Option<(int, Patch)>,
                                       filed: int -> int, back: (int, TypedPatch) -> Patch)
    requires forall e <- overrides :: read(write(e.0, e.1)) == Some((filed(e.0), back(e.0, e.1)))
    ensures ReadOthers(found, first + Written(overrides, write), read)
         == ReadOthers(found, first, read) + Patched(overrides, filed, back)
  {
    if overrides == [] {
      assert first + [] == first;
    } else {
      var n := |overrides| - 1;
      assert overrides[n] in overrides && forall e <- overrides[..n] :: e in overrides;
      PatchesRead(found, first, overrides[..n], write, read, filed, back);
      var before, entry := first + Written(overrides[..n], write), overrides[n];
      if entry.1 == EXCLUDED {
        assert Written(overrides[..n], write) + [] == Written(overrides[..n], write);
      } else {
        assert first + Written(overrides, write) == before + [write(entry.0, entry.1)];
        OneMoreRead(found, before, write(entry.0, entry.1), read);
        MapStep(ReadOthers(found, first, read), Patched(overrides[..n], filed, back), filed(entry.0),
                back(entry.0, entry.1));
      }
    }
  }

  lemma {:induction false} OneMoreRead(found: map<int, Patch>, before: seq<Vevent>, v: Vevent,
      read: Vevent -> Option<(int, Patch)>)
    ensures ReadOthers(found, before + [v], read)
         == var m, entry := ReadOthers(found, before, read), read(v);
            if entry.None? then m else m[entry.value.0 := entry.value.1]
  {
    assert (before + [v])[..|before|] == before;
  }

  lemma {:induction false} MapStep<K, V>(a: map<K, V>, b: map<K, V>, k: K, v: V)
    ensures (a + b)[k := v] == a + b[k := v]
  {
  }

  /** Whatever the object held, reading after writing gives the exclusions and patches just written, over what
      components of other UIDs say. */
  lemma {:induction false} ReadsOverStrays(v: Timed, others: seq<Vevent>, overrides: Overrides, convert: When -> int)
    ensures Read(v, Exclusions(overrides, IdFor(v)), Strays(v, others) + Written(overrides, WriteFor(v)), convert)
         == ReadOthers(Excluded(overrides, FiledFor(v)), Strays(v, others), OverridePatches(v, convert))
            + Patched(overrides, FiledFor(v), ReadBackFor(v))
  {
    var write, read, filed, back := WriteFor(v), OverridePatches(v, convert), FiledFor(v), ReadBackFor(v);
    var id, keyOf := IdFor(v), KeyFor(Zone(v.times.dtstart.value), convert);
    forall e | e in overrides ensures keyOf(id(e.0)) == filed(e.0) {
      KeyIsFiled(v, e.0, convert);
    }
    ExclusionsRead(overrides, id, keyOf, filed);
    forall e | e in overrides ensures read(write(e.0, e.1)) == Some((filed(e.0), back(e.0, e.1))) {
      WrittenReads(v, e.0, e.1, convert);
    }
    PatchesRead(Excluded(overrides, filed), Strays(v, others), overrides, write, read, filed, back);
  }

  // ----- with one UID to the object, as RFC 4791 section 4.1 has it -----

  lemma {:induction false} StraysSayNothing(master: Vevent, others: seq<Vevent>, found: map<int, Patch>,
                                            read: Vevent -> Option<(int, Patch)>)
    requires forall o <- others :: IsOverrideOf(o, master) || read(o).None?
    ensures ReadOthers(found, Strays(master, others), read) == found
  {
    if others != [] {
      var n := |others| - 1;
      assert others[n] in others;
      StraysSayNothing(master, others[..n], found, read);
      var before := Strays(master, others[..n]);
      assert (before + [others[n]])[..|before|] == before && before + [] == before;
    }
  }

  predicate DistinctKeys(overrides: Overrides, filed: int -> int) {
    forall i, j | 0 <= i < j < |overrides| :: filed(overrides[i].0) != filed(overrides[j].0)
  }

  function KeySet(overrides: Overrides, filed: int -> int): set<int> {
    set e | e in overrides :: filed(e.0)
  }

  lemma {:induction false} KeysOf(overrides: Overrides, filed: int -> int, back: (int, TypedPatch) -> Patch)
    ensures (Excluded(overrides, filed) + Patched(overrides, filed, back)).Keys == KeySet(overrides, filed)
  {
    if overrides != [] {
      var n := |overrides| - 1;
      KeysOf(overrides[..n], filed, back);
      assert overrides == overrides[..n] + [overrides[n]];
      assert KeySet(overrides, filed) == KeySet(overrides[..n], filed) + {filed(overrides[n].0)};
    }
  }

  lemma {:induction false} EachUnderItsKey(overrides: Overrides, filed: int -> int, back: (int, TypedPatch) -> Patch,
                                           i: nat)
    requires DistinctKeys(overrides, filed) && i < |overrides|
    ensures var all, e := Excluded(overrides, filed) + Patched(overrides, filed, back), overrides[i];
            filed(e.0) in all && all[filed(e.0)] == if e.1 == EXCLUDED then EXCLUDED else back(e.0, e.1)
  {
    var n := |overrides| - 1;
    var rest, last := overrides[..n], overrides[n];
    KeysOf(rest, filed, back);
    LastKeyIsNew(overrides, filed);
    if last.1 == EXCLUDED {
      AddLeft(Excluded(rest, filed), Patched(rest, filed, back), filed(last.0), EXCLUDED);
    } else {
      MapStep(Excluded(rest, filed), Patched(rest, filed, back), filed(last.0), back(last.0, last.1));
    }
    if i < n {
      EachUnderItsKey(rest, filed, back, i);
      assert filed(overrides[i].0) != filed(last.0);
    }
  }

  lemma {:induction false} AddLeft<K, V>(a: map<K, V>, b: map<K, V>, k: K, v: V)
    requires k !in a + b
    ensures a[k := v] + b == (a + b)[k := v]
  {
  }

  lemma {:induction false} LastKeyIsNew(overrides: Overrides, filed: int -> int)
    requires DistinctKeys(overrides, filed) && overrides != []
    ensures filed(overrides[|overrides| - 1].0) !in KeySet(overrides[..|overrides| - 1], filed)
  {
  }

  /** The overrides that are read after these were written. */
  function ReadAfter(v: Timed, others: seq<Vevent>, overrides: Overrides, convert: When -> int): map<int, Patch> {
    Read(v, Exclusions(overrides, IdFor(v)), Strays(v, others) + Written(overrides, WriteFor(v)), convert)
  }

  /** The round trip: the same exclusions, and for every other override its patch in normal form, each where it is
      filed; these are the occurrences that were given if and only if those of an all-day event were midnights. */
  lemma {:induction false} ReadsWhatWasWritten(v: Timed, others: seq<Vevent>, overrides: Overrides,
      convert: When -> int)
    requires DistinctKeys(overrides, FiledFor(v))
    requires forall o <- others :: o.uid == v.uid
    ensures var found := ReadAfter(v, others, overrides, convert);
            && found.Keys == KeySet(overrides, FiledFor(v))
            && (forall i | 0 <= i < |overrides| ::
                  found[FiledFor(v)(overrides[i].0)] == if overrides[i].1 == EXCLUDED then EXCLUDED
                                                        else ReadBackFor(v)(overrides[i].0, overrides[i].1))
            && (found.Keys == (set e | e in overrides :: e.0) <==> NaturalKeys(v, overrides))
  {
    var filed, back := FiledFor(v), ReadBackFor(v);
    ReadsOverStrays(v, others, overrides, convert);
    StraysSayNothing(v, others, Excluded(overrides, filed), OverridePatches(v, convert));
    KeysOf(overrides, filed, back);
    forall i | 0 <= i < |overrides|
      ensures (Excluded(overrides, filed) + Patched(overrides, filed, back))[filed(overrides[i].0)]
           == if overrides[i].1 == EXCLUDED then EXCLUDED else back(overrides[i].0, overrides[i].1)
    {
      EachUnderItsKey(overrides, filed, back, i);
    }
    SameKeysExactly(v, overrides, convert);
  }

  lemma {:induction false} SameKeysExactly(v: Timed, overrides: Overrides, convert: When -> int)
    ensures KeySet(overrides, FiledFor(v)) == (set e | e in overrides :: e.0) <==> NaturalKeys(v, overrides)
  {
    forall e | e in overrides
      ensures FiledFor(v)(e.0) in KeySet(overrides, FiledFor(v)) && NaturalKey(v, FiledFor(v)(e.0))
      ensures FiledFor(v)(e.0) == e.0 <==> NaturalKey(v, e.0)
    {
      KeyIsFiled(v, e.0, convert);
    }
    if KeySet(overrides, FiledFor(v)) == set e | e in overrides :: e.0 {
      forall e | e in overrides ensures NaturalKey(v, e.0) {
        assert e.0 in KeySet(overrides, FiledFor(v));
      }
    }
  }

  /** An occurrence is excluded afterwards if and only if its patch said excluded and nothing else. */
  lemma {:induction false} ExcludedExactly(v: Timed, others: seq<Vevent>, overrides: Overrides, convert: When -> int,
                                           i: nat)
    requires DistinctKeys(overrides, FiledFor(v)) && i < |overrides|
    requires forall o <- others :: o.uid == v.uid
    ensures FiledFor(v)(overrides[i].0) in ReadAfter(v, others, overrides, convert)
    ensures ReadAfter(v, others, overrides, convert)[FiledFor(v)(overrides[i].0)]
              == map[Untracked("excluded") := Flag(true)]
            <==> overrides[i].1 == map[Untracked("excluded") := Flag(true)]
  {
    ReadsWhatWasWritten(v, others, overrides, convert);
    PatchIsTracked(v, overrides[i].0, overrides[i].1);
    assert overrides[i] in overrides && FiledFor(v)(overrides[i].0) in KeySet(overrides, FiledFor(v));
    assert Untracked("excluded") in EXCLUDED;
  }

  lemma {:induction false} PatchIsTracked(v: Timed, key: int, patch: TypedPatch)
    ensures ReadBack(v, key, patch).Keys <= TRACKED && Untracked("excluded") !in ReadBack(v, key, patch)
  {
    assert Untracked("excluded") !in TRACKED;
    assert Normal(Merged(v, key, patch)).Keys == TRACKED;
  }

  const EXCLUDED_WITH_TITLE: TypedPatch := map[Untracked("excluded") := Flag(true), Title := Text("Cancelled")]

  /** An occurrence given as excluded with a title beside it: it stays, with that title. */
  lemma {:induction false} ExcludedWithTitleStays(v: Timed, key: int, convert: When -> int)
    ensures var overrides: Overrides := [(key, EXCLUDED_WITH_TITLE)];
            var found := ReadAfter(v, [], overrides, convert);
            && found.Keys == {Filed(v, key)}
            && found[Filed(v, key)] == ReadBack(v, key, EXCLUDED_WITH_TITLE) != EXCLUDED
    ensures ExtractProps(Write(v, key, EXCLUDED_WITH_TITLE)).value[Title] == Text("Cancelled")
  {
    OneOverride(v, key, EXCLUDED_WITH_TITLE, convert);
    ExcludedWithTitle(v, key);
  }

  lemma {:induction false} OneOverride(v: Timed, key: int, patch: TypedPatch, convert: When -> int)
    ensures var overrides: Overrides := [(key, patch)];
            var found := ReadAfter(v, [], overrides, convert);
            && found.Keys == {Filed(v, key)}
            && found[Filed(v, key)] == if patch == EXCLUDED then EXCLUDED else ReadBack(v, key, patch)
  {
    var overrides: Overrides := [(key, patch)];
    ReadsWhatWasWritten(v, [], overrides, convert);
    assert FiledFor(v)(overrides[0].0) == Filed(v, key);
    assert KeySet(overrides, FiledFor(v)) == {Filed(v, key)};
  }

  lemma {:induction false} ExcludedWithTitle(v: Timed, key: int)
    ensures EXCLUDED_WITH_TITLE != EXCLUDED && ReadBack(v, key, EXCLUDED_WITH_TITLE) != EXCLUDED
    ensures ExtractProps(Write(v, key, EXCLUDED_WITH_TITLE)).value[Title] == Text("Cancelled")
  {
    assert Title in EXCLUDED_WITH_TITLE && Title !in EXCLUDED && Title in TRACKED;
    assert Untracked("excluded") in EXCLUDED;
    PatchIsTracked(v, key, EXCLUDED_WITH_TITLE);
    WrittenReadsNormal(Blank(v.uid, Some(RecurrenceId(v, key))), Merged(v, key, EXCLUDED_WITH_TITLE));
    assert Merged(v, key, EXCLUDED_WITH_TITLE)[Title] == Text("Cancelled");
  }

  // ----- which patches survive as they are -----

  lemma {:induction false} MinimalIs(baseline: Patch, patch: Patch, normal: Patch)
    requires baseline.Keys == normal.Keys == TRACKED
    ensures Minimal(baseline, normal) == patch
            <==> && patch.Keys <= TRACKED
                 && (forall p <- patch :: patch[p] != baseline[p])
                 && (forall p <- TRACKED :: normal[p] == (baseline + patch)[p])
  {
    var m := Minimal(baseline, normal);
    if m == patch {
      forall p | p in TRACKED ensures normal[p] == (baseline + patch)[p] {
        assert p in m <==> baseline[p] != normal[p];
      }
    }
    if && patch.Keys <= TRACKED && (forall p <- patch :: patch[p] != baseline[p])
       && (forall p <- TRACKED :: normal[p] == (baseline + patch)[p]) {
      forall p ensures p in m <==> p in patch {
        assert p in TRACKED ==> normal[p] == (baseline + patch)[p];
      }
      assert m == patch;
    }
  }

  /** An override comes back as it went in exactly when it names only tracked properties, each changes something, and
      nothing written is rewritten by its normal form. */
  lemma {:induction false} ComesBackExactly(v: Timed, key: int, patch: TypedPatch)
    ensures ReadBack(v, key, patch) == patch
            <==> && patch.Keys <= TRACKED
                 && (forall p <- patch :: patch[p] != Baseline(v, Filed(v, key))[p])
                 && (forall p <- TRACKED :: Normal(Merged(v, key, patch))[p] == Merged(v, Filed(v, key), patch)[p])
  {
    MinimalIs(Baseline(v, Filed(v, key)), patch, Normal(Merged(v, key, patch)));
  }

  lemma {:induction false} MinimalRebuilds(baseline: Patch, normal: Patch)
    requires baseline.Keys <= normal.Keys
    ensures baseline + Minimal(baseline, normal) == normal
  {
  }

  /** Applying the patch that is read rebuilds the occurrence. */
  lemma {:induction false} PatchRebuilds(v: Timed, key: int, patch: TypedPatch)
    ensures Some(Baseline(v, Filed(v, key)) + ReadBack(v, key, patch)) == ExtractProps(Write(v, key, patch))
  {
    WrittenReadsNormal(Blank(v.uid, Some(RecurrenceId(v, key))), Merged(v, key, patch));
    MinimalRebuilds(Baseline(v, Filed(v, key)), Normal(Merged(v, key, patch)));
  }

  lemma {:induction false} NormalIsNormal(props: Patch)
    requires TRACKED <= props.Keys && WellTyped(props)
    ensures WellTyped(Normal(props)) && Normal(Normal(props)) == Normal(props)
  {
    var n := Normal(props);
    assert WellTyped(n);
    assert ShowWithoutTime in TRACKED && Truthy(n[ShowWithoutTime]) == Truthy(props[ShowWithoutTime]);
    forall p | p in TRACKED ensures NormalProp(n, p) == n[p] {
      assert n[p] == NormalProp(props, p);
    }
  }

  lemma {:induction false} FiledOnce(v: Timed, key: int)
    ensures Filed(v, Filed(v, key)) == Filed(v, key)
  {
  }

  /** From the first reading on, writing and reading change nothing. */
  lemma {:induction false} ReadingIsStable(v: Timed, key: int, patch: TypedPatch)
    ensures WellTyped(ReadBack(v, key, patch))
    ensures ReadBack(v, Filed(v, key), ReadBack(v, key, patch)) == ReadBack(v, key, patch)
  {
    var filed, normal := Filed(v, key), Normal(Merged(v, key, patch));
    NormalIsNormal(Merged(v, key, patch));
    MinimalRebuilds(Baseline(v, filed), normal);
    MinimalIsTyped(Baseline(v, filed), normal);
    FiledOnce(v, key);
    assert Merged(v, filed, ReadBack(v, key, patch)) == normal;
  }

  lemma {:induction false} MinimalIsTyped(baseline: Patch, props: Patch)
    requires WellTyped(props)
    ensures WellTyped(Minimal(baseline, props))
  {
  }

  /** An occurrence nothing was changed in reads back unchanged exactly when the master's description is not an empty
      text and an all-day master lasts whole days. */
  lemma {:induction false} UntouchedComesBackExactly(v: Timed, key: int)
    ensures ReadBack(v, key, map[]) == map[]
            <==> v.description != Some("") && (v.times.dtstart.value.Date? ==> Length(v.times) % DAY == 0)
  {
    ComesBackExactly(v, key, map[]);
    forall p | p in TRACKED
      ensures NormalProp(Merged(v, key, map[]), p) == Merged(v, Filed(v, key), map[])[p]
              <==> (p == Description ==> v.description != Some(""))
                   && (p == Duration && v.times.dtstart.value.Date? ==> Length(v.times) % DAY == 0)
    {
      UntouchedProp(v, key, p);
    }
    assert {Description, Duration} <= TRACKED;
  }

  lemma {:induction false} UntouchedProp(v: Timed, key: int, p: Prop)
    requires p in TRACKED
    ensures NormalProp(Merged(v, key, map[]), p) == Merged(v, Filed(v, key), map[])[p]
            <==> (p == Description ==> v.description != Some(""))
                 && (p == Duration && v.times.dtstart.value.Date? ==> Length(v.times) % DAY == 0)
  {
    assert ShowWithoutTime in TRACKED;
    MergedUntouched(v, key, ShowWithoutTime);
    MergedUntouched(v, key, p);
    MergedUntouched(v, Filed(v, key), p);
    UntouchedValue(v, key, Filed(v, key), p, Merged(v, key, map[]), Merged(v, Filed(v, key), map[])[p]);
  }

  lemma {:induction false} UntouchedValue(v: Timed, key: int, filed: int, p: Prop, merged: Patch, was: Value)
    requires TRACKED <= merged.Keys && WellTyped(merged) && p in TRACKED && filed == Filed(v, key)
    requires merged[ShowWithoutTime] == Flag(v.times.dtstart.value.Date?)
    requires merged[p] == if p == Start then At(key) else ReadProp(v, p)
    requires was == if p == Start then At(filed) else ReadProp(v, p)
    ensures NormalProp(merged, p) == was
            <==> (p == Description ==> v.description != Some(""))
                 && (p == Duration && v.times.dtstart.value.Date? ==> Length(v.times) % DAY == 0)
  {
    if p in {Start, Duration, TimeZone, ShowWithoutTime} {
      UntouchedTime(v, key, p, merged);
    } else {
      UntouchedOther(v, p, merged);
    }
  }

  lemma {:induction false} MergedUntouched(v: Timed, key: int, p: Prop)
    requires p in TRACKED
    ensures Merged(v, key, map[])[p] == if p == Start then At(key) else ReadProp(v, p)
  {
    assert MasterProps(v)[p] == ReadProp(v, p);
  }

  lemma {:induction false} UntouchedTime(v: Timed, key: int, p: Prop, merged: Patch)
    requires TRACKED <= merged.Keys && WellTyped(merged)
    requires p in {Start, Duration, TimeZone, ShowWithoutTime} && p in TRACKED
    requires merged[ShowWithoutTime] == Flag(v.times.dtstart.value.Date?)
    requires merged[p] == if p == Start then At(key) else ReadProp(v, p)
    ensures NormalProp(merged, p) == (if p == Start then At(Filed(v, key)) else ReadProp(v, p))
            <==> (p == Duration && v.times.dtstart.value.Date? ==> Length(v.times) % DAY == 0)
  {
  }

  lemma {:induction false} UntouchedOther(v: Timed, p: Prop, merged: Patch)
    requires TRACKED <= merged.Keys && WellTyped(merged)
    requires p in TRACKED - {Start, Duration, TimeZone, ShowWithoutTime} && merged[p] == ReadProp(v, p)
    ensures NormalProp(merged, p) == merged[p] <==> (p == Description ==> v.description != Some(""))
  {
  }

  const NO_DESCRIPTION: Timed :=
    Vevent("a", None, Times(Some(DateTime(0, None)), None, Some(3600)), Some("Call"), Some(""), None, None, None, None,
        None)

  /** A master with an empty DESCRIPTION: an occurrence nobody changed reads back as changed. */
  lemma {:induction false} EmptyDescriptionIsAChange()
    ensures ReadBack(NO_DESCRIPTION, 86400, map[]) != map[]
  {
    UntouchedComesBackExactly(NO_DESCRIPTION, 86400);
  }
}
