/** The CloudWatch side of the poller (cw.go): turning the alarms that
    `DescribeAlarms` reports into `Alarm` records keyed by a hashed
    identifier, and turning an `Alarm` into the event posted to the sink. */
module CloudWatch {
  import opened Wrappers
  import opened Utf8
  import Strconv
  import Fnv
  import Strings
  import LastWins

  datatype Alarm = Alarm(name: string, description: string, tags: map<string, string>, id: string, state: string)

  /** Alarms by identifier. */
  type AlarmMap = map<string, Alarm>

  /** Every key is the identifier of the alarm stored under it. */
  predicate WellKeyed(m: AlarmMap) {
    forall k :: k in m ==> m[k].id == k
  }

  datatype Tag = Tag(key: string, value: string)

  /** One element of `DescribeAlarms`' `MetricAlarms`, together with the answer
      of the `ListTagsForResource` lookup made for it; the timestamp is its
      `StateUpdatedTimestamp` in Unix seconds. */
  datatype MetricAlarm = MetricAlarm(
    arn: string, name: string, description: string,
    stateUpdated: Strconv.int64, state: string, tags: Result<seq<Tag>>)

  /** The fixed segment removed from alarm names (not the configured prefix). */
  const NameSegment: string := "red/"

  /** The `strings.ReplaceAll(name, "red/", "")` of `getActiveAlerts`. */
  function CleanName(name: string): (r: string)
    ensures |r| <= |name|
  {
    Strings.RemoveAll(name, NameSegment)
  }

  lemma NameSegmentUnbordered()
    ensures Strings.Unbordered(NameSegment)
  {
    var p := NameSegment;
    assert p[..1] == "r" && p[3..] == "/";
    assert p[..2] == "re" && p[2..] == "d/";
    assert p[..3] == "red" && p[1..] == "ed/";
  }

  /** A name without the segment is kept as it is. */
  lemma CleanNameKeeps(name: string)
    requires Strings.Free(name, NameSegment)
    ensures CleanName(name) == name
  {
    Strings.RemoveAllFree(name, NameSegment);
  }

  /** A leading segment is removed, and so is every later one; with none left
      after it, "red/" + s becomes s. */
  lemma CleanNameStrips(s: string)
    requires Strings.Free(s, NameSegment)
    ensures CleanName(NameSegment + s) == s
  {
    NameSegmentUnbordered();
    assert NameSegment + s == [] + NameSegment + s;
    Strings.RemoveAllSplit([], NameSegment, s);
    Strings.RemoveAllFree(s, NameSegment);
  }

  /** One left-to-right pass: removing the inner segment of "redred//" leaves
      a new one behind. */
  lemma CleanNameSinglePass()
    ensures CleanName("redred//") == "red/"
  {
    var s := "redred//";
    assert s[..4] == "redr" != NameSegment;
    assert s[1..][..4] == "edre" != NameSegment;
    assert s[2..][..4] == "dred" != NameSegment;
    assert s[3..][..4] == NameSegment;
    assert s[3..][4..] == "/";
    assert s[1..] == "edred//" && s[2..] == "dred//" && s[3..] == "red//";
  }

  /** `hash(s)`: FNV-1a 32 of the bytes of `s`, rendered by `strconv.Itoa`. */
  function HashOf(s: string): (r: string)
    ensures |r| > 0 && Strconv.AllDigits(r)
  {
    Strconv.FormatInt(Fnv.Sum32(Encode(s)) as int)
  }

  /** The identifier is the decimal rendering of a value in [0, 2^32): a
      non-empty string of digits that parses back to the hash value. */
  lemma HashIsDecimal(s: string)
    ensures |HashOf(s)| > 0 && Strconv.AllDigits(HashOf(s))
    ensures Strconv.ParseUint(HashOf(s)) == Strconv.UintResult(Fnv.Sum32(Encode(s)) as int, None)
    ensures Strconv.ParseUint(HashOf(s)).value < 0x1_0000_0000
  {
    Strconv.ParseUintDigits(Fnv.Sum32(Encode(s)) as int);
  }

  /** The running-hasher version of `hash`. */
  method Hash(s: string) returns (r: string)
    ensures r == HashOf(s)
    ensures |r| > 0 && Strconv.AllDigits(r) && Strconv.ParseUint(r).value < 0x1_0000_0000
  {
    var h := Fnv.Hash32a(Encode(s));
    r := Strconv.FormatInt(h as int);
    HashIsDecimal(s);
  }

  /** An alarm's identifier: the hash of its ARN followed by the decimal Unix
      seconds of its last state change. */
  function AlarmId(arn: string, stateUpdated: Strconv.int64): (r: string)
    ensures |r| > 0 && Strconv.AllDigits(r)
  {
    HashOf(arn + Strconv.FormatInt(stateUpdated as int))
  }

  /** For one ARN, different state-change times give different hash inputs, so
      the identifiers differ unless FNV-1a itself collides. */
  lemma AlarmIdInputSeparatesTimes(arn: string, t1: Strconv.int64, t2: Strconv.int64)
    requires t1 != t2
    ensures arn + Strconv.FormatInt(t1 as int) != arn + Strconv.FormatInt(t2 as int)
  {
    if arn + Strconv.FormatInt(t1 as int) == arn + Strconv.FormatInt(t2 as int) {
      assert (arn + Strconv.FormatInt(t1 as int))[|arn|..] == Strconv.FormatInt(t1 as int);
      assert (arn + Strconv.FormatInt(t2 as int))[|arn|..] == Strconv.FormatInt(t2 as int);
      Strconv.FormatIntInjective(t1, t2);
    }
  }

  /** With no separator between ARN and time, an ARN ending in a digit and a
      time with one digit fewer can yield the same identifier as another pair. */
  lemma AlarmIdConcatenationAmbiguous()
    ensures AlarmId("x1", 23) == AlarmId("x", 123)
  {
    assert Strconv.Digits(23) == "23" by {
      assert Strconv.Digits(2) == "2";
    }
    assert Strconv.Digits(123) == "123" by {
      assert Strconv.Digits(12) == "12" by {
        assert Strconv.Digits(1) == "1";
      }
    }
    assert "x1" + "23" == "x" + "123";
  }

  function KeyOf(t: Tag): string { t.key }
  function ValueOf(t: Tag): string { t.value }

  /** The tag map built from a tag list: a later tag overwrites an earlier one
      with the same key. */
  function TagsOf(tags: seq<Tag>): map<string, string> {
    LastWins.Build(tags, KeyOf, ValueOf)
  }

  /** A failed tag lookup leaves the alarm with no tags. */
  function TagsOfLookup(lookup: Result<seq<Tag>>): (m: map<string, string>)
    ensures lookup.Err? ==> m == map[]
    ensures lookup.Ok? ==> m.Keys == set i | 0 <= i < |lookup.value| :: lookup.value[i].key
  {
    if lookup.Err? then map[]
    else
      LastWins.BuildKeys(lookup.value, KeyOf, ValueOf);
      TagsOf(lookup.value)
  }

  /** The tag loop of `getActiveAlerts`. */
  method TagMap(tags: seq<Tag>) returns (m: map<string, string>)
    ensures m == TagsOf(tags)
    ensures m.Keys == set i | 0 <= i < |tags| :: tags[i].key
  {
    m := map[];
    for i := 0 to |tags|
      invariant m == LastWins.Build(tags[..i], KeyOf, ValueOf)
    {
      assert tags[..i + 1][..i] == tags[..i];
      m := m[tags[i].key := tags[i].value];
    }
    assert tags[..|tags|] == tags;
    LastWins.BuildKeys(tags, KeyOf, ValueOf);
  }

  /** The record `getActiveAlerts` makes of one reported alarm. */
  function AlarmOf(raw: MetricAlarm): Alarm {
    Alarm(CleanName(raw.name), raw.description, TagsOfLookup(raw.tags),
          AlarmId(raw.arn, raw.stateUpdated), raw.state)
  }

  /** What the record of one reported alarm holds: a decimal identifier made
      from ARN and timestamp, a name no longer than the reported one and equal
      to it without the segment, the listed tag keys (none after a failed
      lookup), and the reported description and state. */
  lemma AlarmOfFields(raw: MetricAlarm)
    ensures var a := AlarmOf(raw);
      && a.id == AlarmId(raw.arn, raw.stateUpdated) && |a.id| > 0 && Strconv.AllDigits(a.id)
      && |a.name| <= |raw.name| && (Strings.Free(raw.name, NameSegment) ==> a.name == raw.name)
      && (raw.tags.Err? ==> a.tags == map[])
      && (raw.tags.Ok? ==> a.tags.Keys == set i | 0 <= i < |raw.tags.value| :: raw.tags.value[i].key)
      && a.description == raw.description && a.state == raw.state
  {
    if Strings.Free(raw.name, NameSegment) {
      CleanNameKeeps(raw.name);
    }
  }

  /** The identifier of an alarm depends on its ARN and timestamp only. */
  lemma AlarmIdOnlyFromArnAndTime(a: MetricAlarm, b: MetricAlarm)
    requires a.arn == b.arn && a.stateUpdated == b.stateUpdated
    ensures AlarmOf(a).id == AlarmOf(b).id
  {
  }

  function AlarmsOf(raws: seq<MetricAlarm>): (al: seq<Alarm>)
    ensures |al| == |raws| && forall i :: 0 <= i < |raws| ==> al[i] == AlarmOf(raws[i])
  {
    seq(|raws|, i requires 0 <= i < |raws| => AlarmOf(raws[i]))
  }

  /** The body of the loop of `getActiveAlerts`: the tag map, the cleaned name
      and the hashed identifier of one reported alarm. */
  method RecordOf(raw: MetricAlarm) returns (alarm: Alarm)
    ensures alarm == AlarmOf(raw)
  {
    var tags: map<string, string> := map[];
    if raw.tags.Ok? {
      tags := TagMap(raw.tags.value);
    }
    assert tags == TagsOfLookup(raw.tags);
    var name := CleanName(raw.name);
    var id := Hash(raw.arn + Strconv.FormatInt(raw.stateUpdated as int));
    alarm := Alarm(name, raw.description, tags, id, raw.state);
  }

  /** `getActiveAlerts`: an error of `DescribeAlarms` is returned as it is;
      otherwise one record per reported alarm, in order. */
  method GetActiveAlerts(described: Result<seq<MetricAlarm>>) returns (r: Result<seq<Alarm>>)
    ensures described.Err? ==> r == Err(described.error)
    ensures described.Ok? ==> r == Ok(AlarmsOf(described.value))
  {
    if described.Err? {
      return Err(described.error);
    }
    var raws := described.value;
    var list: seq<Alarm> := [];
    for i := 0 to |raws|
      invariant |list| == i
      invariant forall j :: 0 <= j < i ==> list[j] == AlarmOf(raws[j])
    {
      var alarm := RecordOf(raws[i]);
      list := list + [alarm];
    }
    assert list == AlarmsOf(raws);
    return Ok(list);
  }

  function IdOf(a: Alarm): string { a.id }
  function Itself(a: Alarm): Alarm { a }

  /** `getAlarmMap`: on a listing error, the empty map and the error; otherwise
      the listed alarms inserted by identifier in list order. */
  method GetAlarmMap(described: Result<seq<MetricAlarm>>) returns (m: AlarmMap, err: Option<string>)
    ensures described.Err? ==> m == map[] && err == Some(described.error)
    ensures described.Ok? ==> err.None? && WellKeyed(m)
    ensures described.Ok? ==>
      var al := AlarmsOf(described.value);
      && m.Keys == (set i | 0 <= i < |al| :: al[i].id)
      && forall i :: LastWins.IsLast(al, IdOf, i) ==> m[al[i].id] == al[i]
  {
    m := map[];
    var listed := GetActiveAlerts(described);
    if listed.Err? {
      return m, Some(listed.error);
    }
    var al := listed.value;
    for i := 0 to |al|
      invariant m == LastWins.Build(al[..i], IdOf, Itself)
    {
      assert al[..i + 1][..i] == al[..i];
      m := m[al[i].id := al[i]];
    }
    assert al[..|al|] == al;
    err := None;
    BuiltMapKeyed(al);
  }

  /** The map built from a list of alarms by identifier, the last one winning,
      has exactly the identifiers as keys, stores each alarm under its own
      identifier and keeps the last alarm listed for each. */
  lemma BuiltMapKeyed(al: seq<Alarm>)
    ensures var m := LastWins.Build(al, IdOf, Itself);
      && WellKeyed(m)
      && m.Keys == (set i | 0 <= i < |al| :: al[i].id)
      && forall i :: LastWins.IsLast(al, IdOf, i) ==> m[al[i].id] == al[i]
  {
    var m := LastWins.Build(al, IdOf, Itself);
    LastWins.BuildKeys(al, IdOf, Itself);
    forall i | LastWins.IsLast(al, IdOf, i) ensures m[al[i].id] == al[i] {
      LastWins.BuildLast(al, IdOf, Itself, i);
    }
    forall k | k in m ensures m[k].id == k {
      LastWins.BuildHasLast(al, IdOf, Itself, k);
      var i :| LastWins.IsLast(al, IdOf, i) && al[i].id == k;
      LastWins.BuildLast(al, IdOf, Itself, i);
    }
  }

  /** The state switch of `postToElog`. */
  function Status(state: string): (r: string)
    ensures r == "active" <==> state == "ALARM"
    ensures r == "resolved" <==> state == "OK"
    ensures r == "unknown" <==> state != "ALARM" && state != "OK"
  {
    match state
    case "ALARM" => "active"
    case "OK" => "resolved"
    case _ => "unknown"
  }

  /** The event posted to the sink; its other fields keep Go's zero values. */
  datatype Event = Event(
    fingerprint: string, priority: string, status: string, msg: string,
    resource: string, source: string, site: string, env: string,
    tags: map<string, string>)

  /** Go's `m[k]` on a `map[string]string`: "" for a missing key. */
  function Lookup(m: map<string, string>, k: string): string {
    if k in m then m[k] else ""
  }

  const EventSource: string := "CloudWatchPoller"
  const DowngradedPriority: string := "P4"

  /** The event `postToElog` builds for `alarm` under the configured downgrade
      flag and message prefix. */
  function MakeEvent(alarm: Alarm, downgrade: bool, prepend: string): (e: Event)
    ensures e.fingerprint == alarm.id && e.resource == alarm.name && e.tags == alarm.tags
    ensures e.msg == prepend + alarm.description && e.source == EventSource
    ensures e.site == Lookup(alarm.tags, "site") && e.env == Lookup(alarm.tags, "env")
    ensures e.status == Status(alarm.state)
  {
    var prio := if downgrade then DowngradedPriority else Lookup(alarm.tags, "priority");
    Event(alarm.id, prio, Status(alarm.state), prepend + alarm.description,
          alarm.name, EventSource, Lookup(alarm.tags, "site"), Lookup(alarm.tags, "env"),
          alarm.tags)
  }

  /** With downgrade on, the event is the same except that its priority is "P4". */
  lemma DowngradeOnlySetsPriority(alarm: Alarm, prepend: string)
    ensures MakeEvent(alarm, true, prepend) == MakeEvent(alarm, false, prepend).(priority := DowngradedPriority)
  {
  }

  /** With downgrade off, the priority is the "priority" tag, or "" without one. */
  lemma PriorityFromTag(alarm: Alarm, prepend: string)
    ensures "priority" in alarm.tags ==> MakeEvent(alarm, false, prepend).priority == alarm.tags["priority"]
    ensures "priority" !in alarm.tags ==> MakeEvent(alarm, false, prepend).priority == ""
  {
  }

  /** Forcing the state to "OK" changes only the event's status, to "resolved". */
  lemma ClearingOnlySetsStatus(alarm: Alarm, downgrade: bool, prepend: string)
    ensures MakeEvent(alarm.(state := "OK"), downgrade, prepend)
         == MakeEvent(alarm, downgrade, prepend).(status := "resolved")
  {
  }

  /** The state word "resolved" is not one the switch knows. */
  lemma ResolvedIsUnknown()
    ensures Status("resolved") == "unknown"
  {
  }

  /** The event keeps the alarm's identifier, name, tags and description: two
      alarms with the same event under one configuration agree on all four. */
  lemma EventKeepsAlarmData(a: Alarm, b: Alarm, downgrade: bool, prepend: string)
    requires MakeEvent(a, downgrade, prepend) == MakeEvent(b, downgrade, prepend)
    ensures a.id == b.id && a.name == b.name && a.tags == b.tags
    ensures a.description == b.description
  {
    assert (prepend + a.description)[|prepend|..] == a.description;
    assert (prepend + b.description)[|prepend|..] == b.description;
  }
}
