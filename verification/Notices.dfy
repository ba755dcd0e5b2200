/** The sliding-window notice limiter (mem0/memory/notices.py).  The five copies of
    `_recent_*_entries`, `_*_at_capacity` and `_record_*_opportunity` differ only
    in their state key, which is a parameter here. */
module Notices {
  import opened Wrappers

  const CAP := 10
  /** Seven days, in microseconds. */
  const WINDOW := 7 * 24 * 60 * 60 * 1000000

  type NoticeId = string

  /** An entry of an event list; None is one whose timestamp does not parse. */
  type Entry = Option<int>

  /** The state kept for one notice; None where the config holds something else. */
  datatype NoticeState = NoticeState(events: Option<seq<Entry>>, consumed: bool)

  /** The `notice_state` section of the config file; None if missing or malformed. */
  type Config = Option<map<NoticeId, Option<NoticeState>>>

  const FIRST_RUN: NoticeId := "first_run"

  // ---------- reading ----------

  function Events(config: Config, id: NoticeId): seq<Entry> {
    if config.None? || id !in config.value then []
    else match config.value[id]
         case None => []
         case Some(s) => if s.events.None? then [] else s.events.value
  }

  predicate IsRecent(e: Entry, now: int) { e.Some? && e.value >= now - WINDOW }

  /** The entries the recent list keeps, in order. */
  function Recent(entries: seq<Entry>, now: int): seq<Entry> {
    if entries == [] then []
    else (if IsRecent(entries[0], now) then [entries[0]] else []) + Recent(entries[1..], now)
  }

  /** It holds exactly the entries that parse and are at most seven days old, each as often as
      the list does. */
  lemma {:induction false} RecentExact(entries: seq<Entry>, now: int, e: Entry)
    ensures multiset(Recent(entries, now))[e]
              == if e.Some? && e.value >= now - 604_800_000_000 then multiset(entries)[e] else 0
  {
    if entries != [] {
      RecentExact(entries[1..], now, e);
      assert entries == [entries[0]] + entries[1..];
    }
  }

  // ---------- the operations ----------

  /** The file and the per-process latches. */
  datatype State = State(config: Config, latched: set<NoticeId>, claimed: bool)

  function StateOf(config: Config, id: NoticeId): NoticeState {
    if config.Some? && id in config.value && config.value[id].Some? then config.value[id].value
    else NoticeState(None, false)
  }

  function Write(config: Config, id: NoticeId, s: NoticeState): Config {
    Some((if config.Some? then config.value else map[])[id := Some(s)])
  }

  /** `_*_at_capacity`: the latch short-circuits the file. */
  function AtCapacity(s: State, id: NoticeId, now: int): (bool, State) {
    if id in s.latched then (true, s)
    else if |Recent(Events(s.config, id), now)| >= CAP then (true, s.(latched := s.latched + {id}))
    else (false, s)
  }

  /** `_record_*_opportunity` */
  function Record(s: State, id: NoticeId, now: int): (bool, State) {
    var entries := Recent(Events(s.config, id), now);
    if |entries| >= CAP then (false, s.(latched := s.latched + {id}))
    else
      var after := entries + [Some(now)];
      (true, s.(config := Write(s.config, id, StateOf(s.config, id).(events := Some(after))),
                latched := if |after| >= CAP then s.latched + {id} else s.latched))
  }

  /** `_claim_first_run_notice` */
  function Claim(s: State): (bool, State) {
    if s.claimed then (false, s)
    else if StateOf(s.config, FIRST_RUN).consumed then (false, s.(claimed := true))
    else (true, State(Write(s.config, FIRST_RUN, NoticeState(None, true)), s.latched, true))
  }

  /** A new process starts with the file and no latches. */
  function Restart(s: State): State { State(s.config, {}, false) }

  datatype Op =
    | CheckCapacity(id: NoticeId, now: int)
    | RecordOne(id: NoticeId, now: int)
    | ClaimFirstRun
    | RestartProcess

  function Step(s: State, op: Op): State {
    match op
    case CheckCapacity(id, now) => AtCapacity(s, id, now).1
    case RecordOne(id, now) => Record(s, id, now).1
    case ClaimFirstRun => Claim(s).1
    case RestartProcess => Restart(s)
  }

  function Run(s: State, ops: seq<Op>): State {
    if ops == [] then s else Step(Run(s, ops[..|ops| - 1]), ops[|ops| - 1])
  }

  /** The times at which a run accepted an opportunity for one notice. */
  function Accepted(s: State, ops: seq<Op>, id: NoticeId): seq<int> {
    if ops == [] then [] else
    var before, op := Accepted(s, ops[..|ops| - 1], id), ops[|ops| - 1];
    if op.RecordOne? && op.id == id && Record(Run(s, ops[..|ops| - 1]), id, op.now).0 then before + [op.now] else before
  }

  /** How often a run claimed the first-run notice. */
  function Claims(s: State, ops: seq<Op>): nat {
    if ops == [] then 0 else
    Claims(s, ops[..|ops| - 1]) + if ops[|ops| - 1].ClaimFirstRun? && Claim(Run(s, ops[..|ops| - 1])).0 then 1 else 0
  }

  // ---------- a nondecreasing clock ----------

  function Clock(op: Op): Option<int> {
    match op case CheckCapacity(_, now) => Some(now) case RecordOne(_, now) => Some(now) case _ => None
  }

  ghost predicate Monotone(ops: seq<Op>) {
    forall i, j :: 0 <= i < j < |ops| && Clock(ops[i]).Some? && Clock(ops[j]).Some? ==>
      Clock(ops[i]).value <= Clock(ops[j]).value
  }

  ghost predicate NotAfter(ops: seq<Op>, now: int) {
    forall i :: 0 <= i < |ops| && Clock(ops[i]).Some? ==> Clock(ops[i]).value <= now
  }

  // ---------- pruning loses nothing a later call could count ----------

  function AsEntries(times: seq<int>): (r: seq<Entry>)
    ensures |r| == |times|
  {
    seq(|times|, i requires 0 <= i < |times| => Some(times[i]))
  }

  lemma {:induction false} RecentAppend(a: seq<Entry>, c: seq<Entry>, now: int)
    ensures Recent(a + c, now) == Recent(a, now) + Recent(c, now)
  {
    hide IsRecent;
    if a == [] {
      assert a + c == c;
    } else {
      RecentAppend(a[1..], c, now);
      RecentCons(a + c, a[0], a[1..] + c, now);
      RecentCons(a, a[0], a[1..], now);
    }
  }

  lemma RecentCons(entries: seq<Entry>, head: Entry, tail: seq<Entry>, now: int)
    requires entries == [head] + tail
    ensures Recent(entries, now) == (if IsRecent(head, now) then [head] else []) + Recent(tail, now)
  {
    hide IsRecent;
    assert entries[0] == head && entries[1..] == tail;
  }

  lemma {:induction false} RecentLater(entries: seq<Entry>, now: int, later: int)
    requires now <= later
    ensures Recent(Recent(entries, now), later) == Recent(entries, later)
  {
    if entries != [] {
      RecentLater(entries[1..], now, later);
      var head := if IsRecent(entries[0], now) then [entries[0]] else [];
      RecentAppend(head, Recent(entries[1..], now), later);
      assert entries == [entries[0]] + entries[1..];
    }
  }

  /** For every later clock reading the stored list counts what the initial list
      and all accepted times together would. */
  ghost predicate Counts(events: seq<Entry>, start: seq<Entry>, accepted: seq<int>, clock: int) {
    forall now :: clock <= now ==> Recent(events, now) == Recent(start + AsEntries(accepted), now)
  }

  lemma RecordCounts(events: seq<Entry>, start: seq<Entry>, accepted: seq<int>, now: int)
    requires Counts(events, start, accepted, now)
    ensures Counts(Recent(events, now) + [Some(now)], start, accepted + [now], now)
  {
    hide Recent;
    forall later | now <= later
      ensures Recent(Recent(events, now) + [Some(now)], later) == Recent(start + AsEntries(accepted + [now]), later)
    {
      RecentAppend(Recent(events, now), [Some(now)], later);
      RecentLater(events, now, later);
      RecentAppend(start + AsEntries(accepted), [Some(now)], later);
      assert AsEntries(accepted + [now]) == AsEntries(accepted) + [Some(now)];
      assert start + AsEntries(accepted + [now]) == (start + AsEntries(accepted)) + [Some(now)];
    }
  }

  lemma EventsAfterRecord(s: State, id: NoticeId, now: int, other: NoticeId)
    ensures var (ok, t) := Record(s, id, now);
            Events(t.config, other) ==
              if ok && other == id then Recent(Events(s.config, id), now) + [Some(now)] else Events(s.config, other)
  {
  }

  lemma EventsAfterClaim(s: State, id: NoticeId)
    requires id != FIRST_RUN
    ensures Events(Claim(s).1.config, id) == Events(s.config, id)
  {
  }

  /** Recording for one notice leaves every other notice's state alone. */
  lemma RecordIsLocal(s: State, id: NoticeId, now: int, other: NoticeId)
    requires other != id
    ensures var t := Record(s, id, now).1;
            && Events(t.config, other) == Events(s.config, other)
            && StateOf(t.config, other) == StateOf(s.config, other)
            && (other in t.latched <==> other in s.latched)
  {
  }

  // ---------- safety over every run ----------

  ghost predicate Sorted(times: seq<int>) {
    forall i, j :: 0 <= i < j < |times| ==> times[i] <= times[j]
  }

  /** Any eleven consecutive times span more than the window. */
  ghost predicate Spaced(times: seq<int>) {
    forall i :: 0 <= i && i + CAP < |times| ==> times[i + CAP] - times[i] > WINDOW
  }

  lemma {:induction false} RunCounts(s: State, ops: seq<Op>, id: NoticeId, clock: int)
    requires Monotone(ops) && NotAfter(ops, clock) && id != FIRST_RUN
    ensures Counts(Events(Run(s, ops).config, id), Events(s.config, id), Accepted(s, ops, id), clock)
  {
    if ops == [] {
      assert Events(s.config, id) + AsEntries([]) == Events(s.config, id);
    } else {
      var init, op := ops[..|ops| - 1], ops[|ops| - 1];
      var t := Run(s, init);
      RunCounts(s, init, id, clock);
      match op {
        case RecordOne(other, now) =>
          EventsAfterRecord(t, other, now, id);
          if other == id {
            assert NotAfter(init, now) by {
              forall i | 0 <= i < |init| && Clock(init[i]).Some? ensures Clock(init[i]).value <= now {
                assert init[i] == ops[i];
              }
            }
            RunCounts(s, init, id, now);
            RecordCounts(Events(t.config, id), Events(s.config, id), Accepted(s, init, id), now);
          }
        case ClaimFirstRun => EventsAfterClaim(t, id);
        case CheckCapacity(_, _) =>
        case RestartProcess =>
      }
    }
  }

  lemma {:induction false} RecentSize(entries: seq<Entry>, k: nat, now: int)
    requires k <= |entries| && forall i :: k <= i < |entries| ==> IsRecent(entries[i], now)
    ensures |Recent(entries, now)| >= |entries| - k
    decreases |entries|
  {
    if entries != [] {
      RecentSize(entries[1..], if k == 0 then 0 else k - 1, now);
    }
  }

  /** An opportunity is only accepted once the tenth last one has left the window. */
  lemma AcceptedIsSpaced(start: seq<Entry>, accepted: seq<int>, now: int)
    requires Sorted(accepted) && Spaced(accepted)
    requires forall i :: 0 <= i < |accepted| ==> accepted[i] <= now
    requires |Recent(start + AsEntries(accepted), now)| < CAP
    ensures Sorted(accepted + [now]) && Spaced(accepted + [now])
  {
    var n, entries := |accepted|, AsEntries(accepted);
    RecentAppend(start, entries, now);
    if n >= CAP && accepted[n - CAP] >= now - WINDOW {
      forall i | n - CAP <= i < n ensures IsRecent(entries[i], now) { }
      RecentSize(entries, n - CAP, now);
    }
  }

  lemma {:induction false} RunSpaced(s: State, ops: seq<Op>, id: NoticeId, clock: int)
    requires Monotone(ops) && NotAfter(ops, clock) && id != FIRST_RUN
    ensures var acc := Accepted(s, ops, id);
            Sorted(acc) && Spaced(acc) && forall i :: 0 <= i < |acc| ==> acc[i] <= clock
  {
    if ops != [] {
      var init, op := ops[..|ops| - 1], ops[|ops| - 1];
      RunSpaced(s, init, id, clock);
      if op.RecordOne? && op.id == id {
        assert NotAfter(init, op.now) by {
          forall i | 0 <= i < |init| && Clock(init[i]).Some? ensures Clock(init[i]).value <= op.now {
            assert init[i] == ops[i];
          }
        }
        RunSpaced(s, init, id, op.now);
        RunCounts(s, init, id, op.now);
        if Record(Run(s, init), id, op.now).0 {
          AcceptedIsSpaced(Events(s.config, id), Accepted(s, init, id), op.now);
        }
      }
    }
  }

  /** How many of the times fall in the closed interval of seven days starting at `from`. */
  function CountFrom(times: seq<int>, from: int): nat {
    if times == [] then 0
    else (if from <= times[0] <= from + 604_800_000_000 then 1 else 0) + CountFrom(times[1..], from)
  }

  lemma {:induction false} CountSplit(a: seq<int>, c: seq<int>, from: int)
    ensures CountFrom(a + c, from) == CountFrom(a, from) + CountFrom(c, from)
    ensures CountFrom(a, from) <= |a|
  {
    if a == [] {
      assert a + c == c;
    } else {
      assert (a + c)[1..] == a[1..] + c;
      CountSplit(a[1..], c, from);
    }
  }

  lemma {:induction false} CountNone(times: seq<int>, from: int)
    requires forall i :: 0 <= i < |times| ==> times[i] > from + WINDOW
    ensures CountFrom(times, from) == 0
  {
    if times != [] { CountNone(times[1..], from); }
  }

  lemma {:induction false} SpacedCount(times: seq<int>, from: int)
    requires Sorted(times) && Spaced(times)
    ensures CountFrom(times, from) <= CAP
  {
    if times != [] {
      if from <= times[0] && |times| > CAP {
        assert times == times[..CAP] + times[CAP..];
        CountSplit(times[..CAP], times[CAP..], from);
        forall i | 0 <= i < |times| - CAP ensures times[CAP..][i] > from + WINDOW {
          assert times[CAP..][i] == times[i + CAP] && times[CAP] <= times[i + CAP]
            && times[0 + CAP] - times[0] > WINDOW;
        }
        CountNone(times[CAP..], from);
      } else if from <= times[0] {
        CountSplit(times, [], from);
      } else {
        assert Sorted(times[1..]) && Spaced(times[1..]);
        SpacedCount(times[1..], from);
      }
    }
  }

  /** Whatever the config held at the start, over any run of checks, records, claims
      and process restarts with a nondecreasing clock, no closed interval of
      seven days contains more than ten accepted opportunities for one notice. */
  lemma SlidingWindowSafety(s: State, ops: seq<Op>, id: NoticeId, from: int)
    requires Monotone(ops) && id != FIRST_RUN
    ensures CountFrom(Accepted(s, ops, id), from) <= 10
  {
    var clock := LastClock(ops);
    RunSpaced(s, ops, id, clock);
    SpacedCount(Accepted(s, ops, id), from);
  }

  lemma {:induction false} LastClock(ops: seq<Op>) returns (clock: int)
    requires Monotone(ops)
    ensures NotAfter(ops, clock)
  {
    clock := 0;
    if ops != [] {
      var init := ops[..|ops| - 1];
      assert Monotone(init) by {
        forall i, j | 0 <= i < j < |init| && Clock(init[i]).Some? && Clock(init[j]).Some?
          ensures Clock(init[i]).value <= Clock(init[j]).value
        {
          assert init[i] == ops[i] && init[j] == ops[j];
        }
      }
      clock := LastClock(init);
      var last := Clock(ops[|ops| - 1]);
      if last.Some? && last.value > clock { clock := last.value; }
      forall i | 0 <= i < |ops| && Clock(ops[i]).Some? ensures Clock(ops[i]).value <= clock {
        if i < |ops| - 1 { assert init[i] == ops[i]; }
      }
    }
  }

  lemma {:induction false} RecentNone(entries: seq<Entry>, now: int)
    requires forall i :: 0 <= i < |entries| ==> !IsRecent(entries[i], now)
    ensures Recent(entries, now) == []
  {
    if entries != [] { RecentNone(entries[1..], now); }
  }

  lemma RefusalHolds(s: State, id: NoticeId, t: int, u: int)
    requires t <= u && !Record(s, id, u).0
    ensures !Record(Record(s, id, t).1, id, u).0
  {
    var events := Events(s.config, id);
    EventsAfterRecord(s, id, t, id);
    RecentAppend(Recent(events, t), [Some(t)], u);
    RecentLater(events, t, u);
  }

  /** Ten events that a reading of `u` still counts and a later one does not. */
  lemma RefusalIsLost(id: NoticeId, t: int, u: int) returns (s: State)
    requires u < t
    ensures !Record(s, id, u).0 && Record(Record(s, id, t).1, id, u).0
  {
    var ten: seq<Entry> := seq(10, _ => Some(u - WINDOW));
    s := State(Some(map[id := Some(NoticeState(Some(ten), false))]), {}, false);
    RecentSize(ten, 0, u);
    RecentNone(ten, t);
    EventsAfterRecord(s, id, t, id);
    var after: seq<Entry> := [Some(t)];
    assert Events(s.config, id) == ten && Recent(ten, t) + after == after;
    assert after[1..] == [] && |Recent(after, u)| <= 1;
  }

  /** A refusal at `u` survives a recording at `t` in every state iff the clock has not gone
      back in between. */
  lemma ClockMustNotGoBack(id: NoticeId, t: int, u: int)
    ensures (forall s: State :: !Record(s, id, u).0 ==> !Record(Record(s, id, t).1, id, u).0) <==> t <= u
  {
    hide Record;
    if t <= u {
      forall s: State | !Record(s, id, u).0 ensures !Record(Record(s, id, t).1, id, u).0 { RefusalHolds(s, id, t, u); }
    } else {
      var s := RefusalIsLost(id, t, u);
    }
  }

  /** The exact rule: under a nondecreasing clock an opportunity is accepted iff fewer than ten
      of the events at the start and of those accepted since are recent. */
  lemma AcceptedIff(s: State, ops: seq<Op>, id: NoticeId, now: int)
    requires Monotone(ops) && NotAfter(ops, now) && id != FIRST_RUN
    ensures Record(Run(s, ops), id, now).0
       <==> |Recent(Events(s.config, id) + AsEntries(Accepted(s, ops, id)), now)| < 10
  {
    hide Run, Accepted, Recent;
    RunCounts(s, ops, id, now);
  }

  /** What every caller does: check at `now`, then record at `later` unless at capacity. */
  function Offer(s: State, id: NoticeId, now: int, later: int): (bool, State) {
    var (full, t) := AtCapacity(s, id, now);
    if full then (false, t) else Record(t, id, later)
  }

  lemma {:induction false} RecentShrinks(entries: seq<Entry>, now: int, later: int)
    requires now <= later
    ensures |Recent(entries, later)| <= |Recent(entries, now)|
  {
    if entries != [] { RecentShrinks(entries[1..], now, later); }
  }

  /** The rule for a whole call: it accepts iff the notice is not latched and fewer than ten of
      those events are recent at the check. */
  lemma OfferedIff(s: State, ops: seq<Op>, id: NoticeId, now: int, later: int)
    requires Monotone(ops) && NotAfter(ops, now) && now <= later && id != FIRST_RUN
    ensures Offer(Run(s, ops), id, now, later).0
       <==> && id !in Run(s, ops).latched
            && |Recent(Events(s.config, id) + AsEntries(Accepted(s, ops, id)), now)| < 10
  {
    hide Run, Accepted, Recent;
    RunCounts(s, ops, id, now);
    RecentShrinks(Events(Run(s, ops).config, id), now, later);
  }

  /** When a notice is latched: it was, a check found ten recent events, or a recording found or
      made ten. Nothing but a restart takes the latch away. */
  lemma LatchedIff(s: State, op: Op, id: NoticeId)
    ensures id in Step(s, op).latched
       <==> match op
            case CheckCapacity(other, now) =>
              id in s.latched || (other == id && |Recent(Events(s.config, id), now)| >= 10)
            case RecordOne(other, now) => id in s.latched || (other == id && |Recent(Events(s.config, id), now)| >= 9)
            case ClaimFirstRun => id in s.latched
            case RestartProcess => false
  {
    hide Recent;
  }

  lemma {:induction false} LatchStays(s: State, ops: seq<Op>, id: NoticeId)
    requires id in s.latched && RestartProcess !in ops
    ensures id in Run(s, ops).latched
  {
    if ops != [] {
      assert ops[|ops| - 1] in ops;
      LatchStays(s, ops[..|ops| - 1], id);
    }
  }

  /** A latched notice is refused until the process restarts, even once no event is recent; a
      restart leaves the rule to the events alone. */
  lemma LatchOutlivesWindow(s: State, ops: seq<Op>, id: NoticeId, now: int, later: int)
    requires id in s.latched && RestartProcess !in ops && now <= later
    ensures !Offer(Run(s, ops), id, now, later).0
    ensures Offer(Restart(Run(s, ops)), id, now, later).0 <==> |Recent(Events(Run(s, ops).config, id), now)| < 10
  {
    hide Run, Recent;
    LatchStays(s, ops, id);
    RecentShrinks(Events(Run(s, ops).config, id), now, later);
  }

  // ---------- the first-run notice ----------

  /** Over any run, restarts included, the first-run notice is claimed at most once,
      and never if the file already said so. */
  lemma {:induction false} ClaimedOnce(s: State, ops: seq<Op>)
    ensures Claims(s, ops) <= 1
    ensures Claims(s, ops) == 1 ==> StateOf(Run(s, ops).config, FIRST_RUN).consumed
    ensures StateOf(s.config, FIRST_RUN).consumed
      ==> Claims(s, ops) == 0 && StateOf(Run(s, ops).config, FIRST_RUN).consumed
  {
    if ops != [] {
      ClaimedOnce(s, ops[..|ops| - 1]);
    }
  }

  /** In a new process it is claimed at the first try, unless the file already said so. */
  lemma {:induction false} ClaimedWhenAsked(s: State, ops: seq<Op>)
    requires !s.claimed
    ensures Claims(s, ops) == if ClaimFirstRun in ops && !StateOf(s.config, FIRST_RUN).consumed then 1 else 0
    ensures ClaimFirstRun !in ops ==>
              && !Run(s, ops).claimed
              && (StateOf(Run(s, ops).config, FIRST_RUN).consumed <==> StateOf(s.config, FIRST_RUN).consumed)
  {
    ClaimedOnce(s, ops);
    if ops != [] {
      var init, op := ops[..|ops| - 1], ops[|ops| - 1];
      assert forall x :: x in ops <==> x in init || x == op;
      ClaimedWhenAsked(s, init);
    }
  }

  // ---------- the module globals, updated in place ----------

  class NoticeLimiter {
    var config: Config
    var latched: set<NoticeId>
    var claimed: bool

    ghost function Model(): State
      reads this
    {
      State(config, latched, claimed)
    }

    constructor (config: Config)
      ensures Model() == State(config, {}, false)
    {
      this.config, latched, claimed := config, {}, false;
    }

    /** `_recent_*_entries` */
    method RecentEntries(id: NoticeId, now: int) returns (recent: seq<Entry>)
      ensures recent == Recent(Events(config, id), now)
    {
      recent := [];
      if config.None? || id !in config.value { return; }
      if config.value[id].None? || config.value[id].value.events.None? { return; }
      var entries := config.value[id].value.events.value;
      var cutoff := now - WINDOW;
      var i := 0;
      assert entries[0..] == entries;
      while i < |entries|
        invariant 0 <= i <= |entries|
        invariant recent + Recent(entries[i..], now) == Recent(entries, now)
      {
        assert entries[i..][0] == entries[i] && entries[i..][1..] == entries[i + 1..];
        if entries[i].Some? && entries[i].value >= cutoff { recent := recent + [entries[i]]; }
        i := i + 1;
      }
    }

    /** `_*_at_capacity` */
    method IsAtCapacity(id: NoticeId, now: int) returns (full: bool)
      modifies this`latched
      ensures (full, Model()) == AtCapacity(old(Model()), id, now)
    {
      if id in latched { return true; }
      var entries := RecentEntries(id, now);
      full := |entries| >= CAP;
      if full { latched := latched + {id}; }
    }

    /** `_record_*_opportunity` */
    method RecordOpportunity(id: NoticeId, now: int) returns (ok: bool)
      modifies this`config, this`latched
      ensures (ok, Model()) == Record(old(Model()), id, now)
    {
      var entries := RecentEntries(id, now);
      if |entries| >= CAP {
        latched := latched + {id};
        return false;
      }
      entries := entries + [Some(now)];
      var section := if config.Some? then config.value else map[];
      var state := if id in section && section[id].Some? then section[id].value else NoticeState(None, false);
      config := Some(section[id := Some(state.(events := Some(entries)))]);
      if |entries| >= CAP { latched := latched + {id}; }
      ok := true;
    }

    /** `_claim_first_run_notice` */
    method ClaimFirstRun() returns (ok: bool)
      modifies this`config, this`claimed
      ensures (ok, Model()) == Claim(old(Model()))
    {
      if claimed { return false; }
      if config.Some? && FIRST_RUN in config.value && config.value[FIRST_RUN].Some?
        && config.value[FIRST_RUN].value.consumed {
        claimed := true;
        return false;
      }
      var section := if config.Some? then config.value else map[];
      config := Some(section[FIRST_RUN := Some(NoticeState(None, true))]);
      claimed := true;
      ok := true;
    }
  }
}
