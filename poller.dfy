/** The poll-and-diff loop of main.go: on every tick the current alarms are
    compared with those of the previous tick; each alarm that disappeared is
    posted as cleared, each new one as triggered, and the current map becomes
    the history. */
module Poller {
  import opened Wrappers
  import opened CloudWatch
  import opened Config

  datatype Kind = Clear | Trigger

  /** One call of `postToElog`: the alarm passed in and the request it sends. */
  datatype Post = Post(kind: Kind, alarm: Alarm, url: string, key: string, event: Event)

  function MakePost(kind: Kind, alarm: Alarm, s: Settings): Post {
    Post(kind, alarm, s.url, s.key, MakeEvent(alarm, s.downgrade, s.prepend))
  }

  /** The cleared alarms a tick posts for the history keys in `visited`: each
      history alarm whose identifier is not a key of `current`, with its state
      forced to "OK". */
  ghost function ClearedAmong(history: AlarmMap, current: AlarmMap, visited: set<string>): set<Alarm> {
    set k | k in visited && k in history && history[k].id !in current :: history[k].(state := "OK")
  }

  /** The triggered alarms a tick posts for the current keys in `visited`: each
      current alarm whose identifier is not a key of `history`, unchanged. */
  ghost function TriggeredAmong(history: AlarmMap, current: AlarmMap, visited: set<string>): set<Alarm> {
    set k | k in visited && k in current && current[k].id !in history :: current[k]
  }

  ghost function Cleared(history: AlarmMap, current: AlarmMap): set<Alarm> {
    ClearedAmong(history, current, history.Keys)
  }

  ghost function Triggered(history: AlarmMap, current: AlarmMap): set<Alarm> {
    TriggeredAmong(history, current, current.Keys)
  }

  /** `posts` posts every alarm of `alarms` exactly once, as `kind`, under the
      settings `s`, and nothing else. */
  ghost predicate Sends(posts: seq<Post>, kind: Kind, alarms: set<Alarm>, s: Settings) {
    && (forall i :: 0 <= i < |posts| ==> posts[i] == MakePost(kind, posts[i].alarm, s))
    && (forall i, j :: 0 <= i < j < |posts| ==> posts[i].alarm != posts[j].alarm)
    && (set i | 0 <= i < |posts| :: posts[i].alarm) == alarms
  }

  lemma SendsAppend(posts: seq<Post>, kind: Kind, alarms: set<Alarm>, s: Settings, a: Alarm)
    requires Sends(posts, kind, alarms, s) && a !in alarms
    ensures Sends(posts + [MakePost(kind, a, s)], kind, alarms + {a}, s)
  {
    var ps := posts + [MakePost(kind, a, s)];
    forall i | 0 <= i < |ps| ensures ps[i] == MakePost(kind, ps[i].alarm, s) {
      if i < |posts| { assert ps[i] == posts[i]; }
    }
    forall i, j | 0 <= i < j < |ps| ensures ps[i].alarm != ps[j].alarm {
      assert ps[i] == posts[i];
      if j < |posts| {
        assert ps[j] == posts[j];
      } else {
        assert posts[i].alarm in alarms;
      }
    }
    PostedAlarmsAppend(posts, MakePost(kind, a, s));
  }

  lemma PostedAlarmsAppend(posts: seq<Post>, p: Post)
    ensures (set i | 0 <= i < |posts + [p]| :: (posts + [p])[i].alarm)
      == (set i | 0 <= i < |posts| :: posts[i].alarm) + {p.alarm}
  {
    var ps := posts + [p];
    assert forall i :: 0 <= i < |posts| ==> ps[i] == posts[i];
    assert ps[|posts|] == p;
  }

  /** A post sequence of `alarms` has one post per alarm. */
  lemma {:induction false} SendsCount(posts: seq<Post>, kind: Kind, alarms: set<Alarm>, s: Settings)
    requires Sends(posts, kind, alarms, s)
    ensures |posts| == |alarms|
    decreases |posts|
  {
    if posts != [] {
      var n := |posts| - 1;
      var init := posts[..n];
      var a := posts[n].alarm;
      assert forall i :: 0 <= i < n ==> init[i] == posts[i];
      var rest := set i | 0 <= i < n :: init[i].alarm;
      assert a !in rest;
      assert alarms == rest + {a};
      SendsCount(init, kind, rest, s);
    }
  }

  /** The number of cleared posts is the number of history keys missing from
      the current map; the number of triggered posts, the number of current
      keys missing from the history. */
  lemma {:induction false} DiffCounts(history: AlarmMap, current: AlarmMap)
    requires WellKeyed(history) && WellKeyed(current)
    ensures |Cleared(history, current)| == |history.Keys - current.Keys|
    ensures |Triggered(history, current)| == |current.Keys - history.Keys|
  {
    ClearedCount(history, current, history.Keys);
    TriggeredCount(history, current, current.Keys);
  }

  /** Visiting one more history key adds at most its cleared alarm. */
  lemma ClearedAmongAdd(history: AlarmMap, current: AlarmMap, rest: set<string>, k: string)
    requires k in history
    ensures ClearedAmong(history, current, rest + {k}) ==
      ClearedAmong(history, current, rest) + (if history[k].id !in current then {history[k].(state := "OK")} else {})
  {
  }

  lemma TriggeredAmongAdd(history: AlarmMap, current: AlarmMap, rest: set<string>, k: string)
    requires k in current
    ensures TriggeredAmong(history, current, rest + {k}) ==
      TriggeredAmong(history, current, rest) + (if current[k].id !in history then {current[k]} else {})
  {
  }

  /** A key not yet visited has no cleared alarm among the visited ones. */
  lemma ClearedFresh(history: AlarmMap, current: AlarmMap, rest: set<string>, k: string)
    requires WellKeyed(history) && k in history && k !in rest
    ensures history[k].(state := "OK") !in ClearedAmong(history, current, rest)
  {
  }

  lemma TriggeredFresh(history: AlarmMap, current: AlarmMap, rest: set<string>, k: string)
    requires WellKeyed(current) && k in current && k !in rest
    ensures current[k] !in TriggeredAmong(history, current, rest)
  {
  }

  /** One step of counting two sets side by side: both grow by a new element,
      or neither changes. */
  lemma GrowTogether<A, B>(xs: set<A>, xs': set<A>, x: A, ys: set<B>, ys': set<B>, y: B, grows: bool)
    requires |xs| == |ys|
    requires xs' == if grows then xs + {x} else xs
    requires ys' == if grows then ys + {y} else ys
    requires grows ==> x !in xs && y !in ys
    ensures |xs'| == |ys'|
  {
  }

  lemma DiffAdd<T>(rest: set<T>, k: T, ks: set<T>)
    ensures k !in ks ==> (rest + {k}) - ks == (rest - ks) + {k}
    ensures k in ks ==> (rest + {k}) - ks == rest - ks
  {
  }

  lemma ClearedCountStep(history: AlarmMap, current: AlarmMap, visited: set<string>, k: string)
    requires WellKeyed(history) && k in history && k in visited
    requires |ClearedAmong(history, current, visited - {k})| == |(visited - {k}) - current.Keys|
    ensures |ClearedAmong(history, current, visited)| == |visited - current.Keys|
  {
    var rest := visited - {k};
    assert rest + {k} == visited;
    ClearedAmongAdd(history, current, rest, k);
    ClearedFresh(history, current, rest, k);
    DiffAdd(rest, k, current.Keys);
    GrowTogether(ClearedAmong(history, current, rest), ClearedAmong(history, current, visited),
                 history[k].(state := "OK"), rest - current.Keys, visited - current.Keys, k,
                 k !in current);
  }

  lemma TriggeredCountStep(history: AlarmMap, current: AlarmMap, visited: set<string>, k: string)
    requires WellKeyed(current) && k in current && k in visited
    requires |TriggeredAmong(history, current, visited - {k})| == |(visited - {k}) - history.Keys|
    ensures |TriggeredAmong(history, current, visited)| == |visited - history.Keys|
  {
    var rest := visited - {k};
    assert rest + {k} == visited;
    TriggeredAmongAdd(history, current, rest, k);
    TriggeredFresh(history, current, rest, k);
    DiffAdd(rest, k, history.Keys);
    GrowTogether(TriggeredAmong(history, current, rest), TriggeredAmong(history, current, visited),
                 current[k], rest - history.Keys, visited - history.Keys, k, k !in history);
  }

  lemma {:induction false} ClearedCount(history: AlarmMap, current: AlarmMap, visited: set<string>)
    requires WellKeyed(history) && visited <= history.Keys
    ensures |ClearedAmong(history, current, visited)| == |visited - current.Keys|
    decreases |visited|
  {
    if visited == {} {
      assert ClearedAmong(history, current, visited) == {};
    } else {
      var k :| k in visited;
      ClearedCount(history, current, visited - {k});
      ClearedCountStep(history, current, visited, k);
    }
  }

  lemma {:induction false} TriggeredCount(history: AlarmMap, current: AlarmMap, visited: set<string>)
    requires WellKeyed(current) && visited <= current.Keys
    ensures |TriggeredAmong(history, current, visited)| == |visited - history.Keys|
    decreases |visited|
  {
    if visited == {} {
      assert TriggeredAmong(history, current, visited) == {};
    } else {
      var k :| k in visited;
      TriggeredCount(history, current, visited - {k});
      TriggeredCountStep(history, current, visited, k);
    }
  }

  /** An alarm whose identifier is a key of both maps produces no post. */
  lemma StillActiveNotPosted(history: AlarmMap, current: AlarmMap, k: string)
    requires WellKeyed(history) && WellKeyed(current)
    requires k in history && k in current
    ensures forall a :: a in Cleared(history, current) + Triggered(history, current) ==> a.id != k
  {
  }

  /** A tick posts nothing exactly when the two maps have the same keys. */
  lemma QuietIffSameKeys(history: AlarmMap, current: AlarmMap)
    requires WellKeyed(history) && WellKeyed(current)
    ensures (Cleared(history, current) == {} && Triggered(history, current) == {})
        <==> history.Keys == current.Keys
  {
    if history.Keys != current.Keys {
      if k :| k in history && k !in current {
        assert history[k].(state := "OK") in Cleared(history, current);
      } else {
        var k :| k in current && k !in history;
        assert current[k] in Triggered(history, current);
      }
    }
  }

  /** Every cleared post carries state "OK", so its event status is "resolved". */
  lemma ClearedAreResolved(history: AlarmMap, current: AlarmMap, s: Settings)
    ensures forall a :: a in Cleared(history, current) ==>
      a.state == "OK" && MakePost(Clear, a, s).event.status == "resolved"
  {
  }

  /** The state machine of the goroutine in main.go. */
  class Poller {
    /** The alarms of the previous successful tick. */
    var history: AlarmMap
    /** Every `postToElog` call made so far, in order. */
    ghost var sent: seq<Post>

    ghost predicate Valid()
      reads this
    {
      WellKeyed(history)
    }

    /** Before the first tick the history is empty and nothing was posted. */
    constructor ()
      ensures Valid() && history == map[] && sent == []
    {
      history := map[];
      sent := [];
    }

    /** `postToElog(cfg.url, cfg.key, alarm)`; its error is only logged, so its
        outcome does not matter here. */
    method PostToElog(kind: Kind, alarm: Alarm, s: Settings)
      modifies this`sent
      ensures sent == old(sent) + [MakePost(kind, alarm, s)]
    {
      sent := sent + [MakePost(kind, alarm, s)];
    }

    /** The first loop of a tick (main.go:92-107): over the history, in an
        unspecified order. */
    method PostCleared(current: AlarmMap, s: Settings) returns (ghost posts: seq<Post>)
      requires Valid()
      modifies this`sent
      ensures sent == old(sent) + posts
      ensures Sends(posts, Clear, Cleared(history, current), s)
    {
      posts := [];
      var pending := history.Keys;
      while pending != {}
        invariant pending <= history.Keys
        invariant sent == old(sent) + posts
        invariant Sends(posts, Clear, ClearedAmong(history, current, history.Keys - pending), s)
        decreases pending
      {
        var k :| k in pending;
        var alarm := history[k];
        ghost var before := ClearedAmong(history, current, history.Keys - pending);
        if alarm.id !in current {
          alarm := alarm.(state := "OK");
          assert alarm !in before;
          SendsAppend(posts, Clear, before, s, alarm);
          PostToElog(Clear, alarm, s);
          posts := posts + [MakePost(Clear, alarm, s)];
          assert ClearedAmong(history, current, history.Keys - (pending - {k})) == before + {alarm};
        } else {
          assert ClearedAmong(history, current, history.Keys - (pending - {k})) == before;
        }
        pending := pending - {k};
      }
    }

    /** The second loop of a tick (main.go:110-124): over the current map, in
        an unspecified order, against the history not yet replaced. */
    method PostTriggered(current: AlarmMap, s: Settings) returns (ghost posts: seq<Post>)
      requires WellKeyed(current)
      modifies this`sent
      ensures sent == old(sent) + posts
      ensures Sends(posts, Trigger, Triggered(history, current), s)
    {
      posts := [];
      var pending := current.Keys;
      while pending != {}
        invariant pending <= current.Keys
        invariant sent == old(sent) + posts
        invariant Sends(posts, Trigger, TriggeredAmong(history, current, current.Keys - pending), s)
        decreases pending
      {
        var k :| k in pending;
        var alarm := current[k];
        ghost var before := TriggeredAmong(history, current, current.Keys - pending);
        if alarm.id !in history {
          assert alarm !in before;
          SendsAppend(posts, Trigger, before, s, alarm);
          PostToElog(Trigger, alarm, s);
          posts := posts + [MakePost(Trigger, alarm, s)];
          assert TriggeredAmong(history, current, current.Keys - (pending - {k})) == before + {alarm};
        } else {
          assert TriggeredAmong(history, current, current.Keys - (pending - {k})) == before;
        }
        pending := pending - {k};
      }
    }

    /** One tick with the result of `getAlarmMap`. On an error nothing is
        posted, the history is kept and `stop` says that the goroutine returns
        (main.go:88). Otherwise every cleared post comes before every triggered
        one and the history becomes the current map exactly. */
    method Tick(fetched: Result<AlarmMap>, s: Settings)
      returns (stop: bool, ghost clears: seq<Post>, ghost triggers: seq<Post>)
      requires Valid()
      requires fetched.Ok? ==> WellKeyed(fetched.value)
      modifies this
      ensures Valid()
      ensures stop == fetched.Err?
      ensures old(sent) <= sent
      ensures fetched.Err? ==> history == old(history) && sent == old(sent) && clears == [] && triggers == []
      ensures fetched.Ok? ==> history == fetched.value && sent == old(sent) + clears + triggers
      ensures fetched.Ok? ==> Sends(clears, Clear, Cleared(old(history), fetched.value), s)
      ensures fetched.Ok? ==> Sends(triggers, Trigger, Triggered(old(history), fetched.value), s)
      ensures fetched.Ok? ==> |clears| == |old(history).Keys - fetched.value.Keys|
      ensures fetched.Ok? ==> |triggers| == |fetched.value.Keys - old(history).Keys|
    {
      if fetched.Err? {
        return true, [], [];
      }
      var current := fetched.value;
      clears := PostCleared(current, s);
      triggers := PostTriggered(current, s);
      SendsCount(clears, Clear, Cleared(history, current), s);
      SendsCount(triggers, Trigger, Triggered(history, current), s);
      DiffCounts(history, current);
      history := current;
      stop := false;
    }

    /** The goroutine as written: ticks are taken in order until one whose
        fetch fails, after which the loop has returned and no later tick is
        looked at. `n` is the number of ticks taken. */
    method Run(ticks: seq<Result<AlarmMap>>, s: Settings) returns (n: nat)
      requires Valid()
      requires forall i :: 0 <= i < |ticks| && ticks[i].Ok? ==> WellKeyed(ticks[i].value)
      modifies this
      ensures Valid()
      ensures n == (if FirstErr(ticks) < |ticks| then FirstErr(ticks) + 1 else |ticks|)
      ensures history == HistoryAfter(old(history), ticks[..n])
      ensures old(sent) <= sent
    {
      n := 0;
      var stop := false;
      while n < |ticks| && !stop
        invariant Valid()
        invariant n <= |ticks|
        invariant !stop ==> n <= FirstErr(ticks)
        invariant stop ==> n == FirstErr(ticks) + 1
        invariant history == HistoryAfter(old(history), ticks[..n])
        invariant old(sent) <= sent
      {
        ghost var clears, triggers;
        stop, clears, triggers := Tick(ticks[n], s);
        HistoryAfterAppend(old(history), ticks[..n], ticks[n]);
        assert ticks[..n + 1] == ticks[..n] + [ticks[n]];
        n := n + 1;
      }
    }

    /** The goroutine with `continue` in place of `return`: a failed fetch
        skips only its own tick, and every tick is taken. */
    method RunCorrected(ticks: seq<Result<AlarmMap>>, s: Settings)
      requires Valid()
      requires forall i :: 0 <= i < |ticks| && ticks[i].Ok? ==> WellKeyed(ticks[i].value)
      modifies this
      ensures Valid()
      ensures history == HistoryAfter(old(history), ticks)
      ensures old(sent) <= sent
    {
      for n := 0 to |ticks|
        invariant Valid()
        invariant history == HistoryAfter(old(history), ticks[..n])
        invariant old(sent) <= sent
      {
        var _, _, _ := Tick(ticks[n], s);
        HistoryAfterAppend(old(history), ticks[..n], ticks[n]);
        assert ticks[..n + 1] == ticks[..n] + [ticks[n]];
      }
      assert ticks[..|ticks|] == ticks;
    }
  }

  /** The index of the first failed fetch, or `|ticks|` when there is none. */
  function FirstErr(ticks: seq<Result<AlarmMap>>): (r: nat)
    ensures r <= |ticks|
    ensures r < |ticks| ==> ticks[r].Err?
    ensures forall i :: 0 <= i < r ==> ticks[i].Ok?
  {
    if ticks == [] then 0
    else if ticks[0].Err? then 0
    else 1 + FirstErr(ticks[1..])
  }

  /** `ticks[i]` is the last successful fetch of `ticks`. */
  predicate IsLastOk(ticks: seq<Result<AlarmMap>>, i: int) {
    0 <= i < |ticks| && ticks[i].Ok? && forall j :: i < j < |ticks| ==> ticks[j].Err?
  }

  /** The history after a run of ticks: the map of the last successful fetch,
      or the starting history when no fetch succeeded. */
  function HistoryAfter(start: AlarmMap, ticks: seq<Result<AlarmMap>>): (h: AlarmMap)
    ensures (forall i :: 0 <= i < |ticks| ==> ticks[i].Err?) ==> h == start
    ensures forall i :: IsLastOk(ticks, i) ==> h == ticks[i].value
    decreases |ticks|
  {
    if ticks == [] then start
    else
      var n := |ticks| - 1;
      var init := ticks[..n];
      if ticks[n].Ok? then ticks[n].value
      else
        assert forall i :: IsLastOk(ticks, i) ==> IsLastOk(init, i);
        HistoryAfter(start, init)
  }

  lemma HistoryAfterAppend(start: AlarmMap, ticks: seq<Result<AlarmMap>>, t: Result<AlarmMap>)
    ensures HistoryAfter(start, ticks + [t])
         == if t.Ok? then t.value else HistoryAfter(start, ticks)
  {
    assert (ticks + [t])[..|ticks|] == ticks;
  }

  /** A tick whose fetched map equals the history posts nothing. */
  lemma RepeatedSnapshotQuiet(current: AlarmMap)
    requires WellKeyed(current)
    ensures Cleared(current, current) == {} && Triggered(current, current) == {}
  {
    QuietIffSameKeys(current, current);
  }

  /** History {A, B} and current {B, C}: A is cleared, C is triggered, B produces nothing. */
  lemma DiffExample(a: Alarm, b: Alarm, c: Alarm)
    requires a.id == "A" && b.id == "B" && c.id == "C"
    ensures Cleared(map["A" := a, "B" := b], map["B" := b, "C" := c]) == {a.(state := "OK")}
    ensures Triggered(map["A" := a, "B" := b], map["B" := b, "C" := c]) == {c}
  {
    var h, cur := map["A" := a, "B" := b], map["B" := b, "C" := c];
    assert h.Keys == {"A", "B"} && cur.Keys == {"B", "C"};
  }
}
