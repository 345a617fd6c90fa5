/**
 Event-driven curation triggers (src/memory_service/workers/curation_worker.py): the group
 accumulator, and the worker around it as a step system in which message handling, timeout scans and
 trigger tasks interleave freely.
 */
module Accumulator {
  import opened Basics

  datatype Event = Event(uuid: string, group: string, episodeType: string, status: string)

  /** A message decodes to an event or is malformed. */
  datatype Message = Malformed | Decoded(event: Event)

  datatype Acc = Acc(groups: map<string, seq<Event>>, firstSeen: map<string, real>)

  const EMPTY := Acc(map[], map[])

  /** Only pending raw episodes are accumulated. */
  predicate Accepted(m: Message) {
    m.Decoded? && m.event.episodeType == "raw" && m.event.status == "pending"
  }

  function Pending(acc: Acc, group: string): seq<Event> {
    if group in acc.groups then acc.groups[group] else []
  }

  function AddSpec(acc: Acc, m: Message, now: real): Acc {
    if !Accepted(m) then acc
    else
      var g := m.event.group;
      Acc(acc.groups[g := Pending(acc, g) + [m.event]],
          if g in acc.firstSeen then acc.firstSeen else acc.firstSeen[g := now])
  }

  /** The group reported by add: the one that has reached the threshold. */
  function Reached(acc: Acc, m: Message, minEpisodes: int): Option<string> {
    if Accepted(m) && |Pending(acc, m.event.group)| + 1 >= minEpisodes then Some(m.event.group) else None
  }

  function PopSpec(acc: Acc, group: string): Acc {
    Acc(acc.groups - {group}, acc.firstSeen - {group})
  }

  function TimedOut(acc: Acc, now: real, maxWait: real): set<string> {
    set g | g in acc.firstSeen && now - acc.firstSeen[g] > maxWait && |Pending(acc, g)| > 0
  }

  /** The same groups in both maps, and no empty list. */
  ghost predicate Consistent(acc: Acc) {
    acc.groups.Keys == acc.firstSeen.Keys && forall g :: g in acc.groups ==> acc.groups[g] != []
  }

  class GroupAccumulator {
    const minEpisodes: int
    const maxWait: real
    var groups: map<string, seq<Event>>
    var firstSeen: map<string, real>

    constructor (minEpisodes: int, maxWait: real)
      ensures this.minEpisodes == minEpisodes && this.maxWait == maxWait && View() == EMPTY
    {
      this.minEpisodes, this.maxWait := minEpisodes, maxWait;
      groups, firstSeen := map[], map[];
    }

    function View(): Acc
      reads this
    {
      Acc(groups, firstSeen)
    }

    method Add(m: Message, now: real) returns (reached: Option<string>)
      modifies this
      ensures View() == AddSpec(old(View()), m, now)
      ensures reached == Reached(old(View()), m, minEpisodes)
    {
      if m.Malformed? {
        return None;
      }
      var event := m.event;
      if event.episodeType != "raw" || event.status != "pending" {
        return None;
      }
      var g := event.group;
      groups := groups[g := (if g in groups then groups[g] else []) + [event]];
      if g !in firstSeen {
        firstSeen := firstSeen[g := now];
      }
      reached := if |groups[g]| >= minEpisodes then Some(g) else None;
    }

    method PopGroup(group: string) returns (events: seq<Event>)
      modifies this
      ensures View() == PopSpec(old(View()), group)
      ensures events == Pending(old(View()), group)
    {
      events := if group in groups then groups[group] else [];
      groups := groups - {group};
      firstSeen := firstSeen - {group};
    }

    method GetTimedOutGroups(now: real) returns (due: set<string>)
      requires Consistent(View())
      ensures due == TimedOut(View(), now, maxWait)
    {
      due := set g | g in firstSeen && now - firstSeen[g] > maxWait && |groups[g]| > 0;
    }
  }

  // ---------------------------------------------------------------- the worker

  /** Where the message loop stands: between messages, or between add and the acknowledgement. */
  datatype Phase = Idle | Added(reached: Option<string>)

  datatype Batch = Batch(group: string, events: seq<Event>)

  datatype Arrival = Arrival(event: Event, at: real)

  /**
   `triggers` are the curation tasks created and not yet run, `popped` the batches handed to curation,
   `arrivals` all accepted events, `lost` the groups whose trigger a failed acknowledgement dropped
   since they were last popped.
   */
  datatype Worker = Worker(acc: Acc, phase: Phase, triggers: multiset<string>, popped: seq<Batch>,
                           arrivals: seq<Arrival>, lost: set<string>)

  datatype Config = Config(minEpisodes: int, maxWait: real)

  datatype Step =
    | Deliver(message: Message, now: real)
    | Acknowledge(ok: bool)
    | ScanTimeouts(now: real)
    | RunTrigger(group: string)

  const START := Worker(EMPTY, Idle, multiset{}, [], [], {})

  predicate Enabled(w: Worker, s: Step) {
    match s
    case Deliver(_, _) => w.phase == Idle
    case Acknowledge(_) => w.phase.Added?
    case ScanTimeouts(_) => true
    case RunTrigger(g) => g in w.triggers
  }

  function Next(c: Config, w: Worker, s: Step): Worker
    requires Enabled(w, s)
  {
    match s
    case Deliver(m, now) =>
      w.(acc := AddSpec(w.acc, m, now), phase := Added(Reached(w.acc, m, c.minEpisodes)),
         arrivals := if Accepted(m) then w.arrivals + [Arrival(m.event, now)] else w.arrivals)
    case Acknowledge(ok) =>
      if w.phase.reached.None? then w.(phase := Idle)
      else if ok then w.(phase := Idle, triggers := w.triggers + multiset{w.phase.reached.value})
      else w.(phase := Idle, lost := w.lost + {w.phase.reached.value})
    case ScanTimeouts(now) => w.(triggers := w.triggers + multiset(TimedOut(w.acc, now, c.maxWait)))
    case RunTrigger(g) =>
      var events := Pending(w.acc, g);
      w.(acc := PopSpec(w.acc, g), triggers := w.triggers - multiset{g}, lost := w.lost - {g},
         popped := if events == [] then w.popped else w.popped + [Batch(g, events)])
  }

  /** The states of a run: every step enabled where it is taken. */
  ghost predicate IsRun(c: Config, states: seq<Worker>, steps: seq<Step>) {
    && |states| == |steps| + 1 && states[0] == START
    && forall i :: 0 <= i < |steps| ==> Enabled(states[i], steps[i]) && states[i + 1] == Next(c, states[i], steps[i])
  }

  // ---------------------------------------------------------------- conservation

  function ArrivalsOf(arrivals: seq<Arrival>, group: string): seq<Arrival>
    decreases |arrivals|
  {
    if arrivals == [] then []
    else ArrivalsOf(arrivals[..|arrivals| - 1], group)
         + (if arrivals[|arrivals| - 1].event.group == group then [arrivals[|arrivals| - 1]] else [])
  }

  function EventsOf(arrivals: seq<Arrival>): (r: seq<Event>)
    ensures |r| == |arrivals| && forall i :: 0 <= i < |arrivals| ==> r[i] == arrivals[i].event
  {
    seq(|arrivals|, i requires 0 <= i < |arrivals| => arrivals[i].event)
  }

  /** Everything popped for a group, in the order it was popped. */
  function PoppedOf(popped: seq<Batch>, group: string): seq<Event>
    decreases |popped|
  {
    if popped == [] then []
    else PoppedOf(popped[..|popped| - 1], group)
         + (if popped[|popped| - 1].group == group then popped[|popped| - 1].events else [])
  }

  /**
   The accepted events of a group, in arrival order, are its popped batches followed by its pending
   list; the time kept for the group is the arrival time of its oldest pending event.
   */
  ghost predicate Conserves(w: Worker, g: string) {
    var all, done := ArrivalsOf(w.arrivals, g), PoppedOf(w.popped, g);
    && EventsOf(all) == done + Pending(w.acc, g)
    && (g in w.acc.firstSeen ==> |done| < |all| && w.acc.firstSeen[g] == all[|done|].at)
  }

  /** A group at or over the threshold has a trigger outstanding, is about to get one, or lost it. */
  ghost predicate Triggered(c: Config, w: Worker, g: string) {
    g in w.acc.groups && |w.acc.groups[g]| >= c.minEpisodes ==>
      g in w.triggers || w.phase == Added(Some(g)) || g in w.lost
  }

  ghost predicate OneGroupEach(w: Worker) {
    && (forall g, e :: g in w.acc.groups && e in w.acc.groups[g] ==> e.group == g)
    && (forall b :: b in w.popped ==> b.events != [] && forall e :: e in b.events ==> e.group == b.group)
  }

  ghost predicate Inv(c: Config, w: Worker) {
    && Consistent(w.acc)
    && OneGroupEach(w)
    && (forall g :: Conserves(w, g))
    && (forall g :: Triggered(c, w, g))
  }

  lemma ArrivalsAppend(arrivals: seq<Arrival>, a: Arrival, g: string)
    ensures ArrivalsOf(arrivals + [a], g) == ArrivalsOf(arrivals, g) + (if a.event.group == g then [a] else [])
  {
    assert (arrivals + [a])[..|arrivals|] == arrivals;
  }

  lemma PoppedAppend(popped: seq<Batch>, b: Batch, g: string)
    ensures PoppedOf(popped + [b], g) == PoppedOf(popped, g) + (if b.group == g then b.events else [])
  {
    assert (popped + [b])[..|popped|] == popped;
  }

  lemma DeliverConserves(c: Config, w: Worker, s: Step, g: string)
    requires Consistent(w.acc) && Conserves(w, g) && s.Deliver? && Enabled(w, s)
    ensures Conserves(Next(c, w, s), g)
  {
    if Accepted(s.message) {
      var a := Arrival(s.message.event, s.now);
      var all, done := ArrivalsOf(w.arrivals, g), PoppedOf(w.popped, g);
      ArrivalsAppend(w.arrivals, a, g);
      var pending, acc' := Pending(w.acc, g), AddSpec(w.acc, s.message, s.now);
      assert |all| == |done| + |pending|;
      if a.event.group == g {
        assert Pending(acc', g) == pending + [a.event];
        assert EventsOf(all + [a]) == EventsOf(all) + [a.event] == done + (pending + [a.event]);
        assert g in w.acc.firstSeen <==> pending != [];
      } else {
        assert Pending(acc', g) == pending;
        assert all + [] == all;
      }
    }
  }

  lemma RunTriggerConserves(c: Config, w: Worker, s: Step, g: string)
    requires Consistent(w.acc) && Conserves(w, g) && s.RunTrigger? && Enabled(w, s)
    ensures Conserves(Next(c, w, s), g)
  {
    var events := Pending(w.acc, s.group);
    PoppedAppend(w.popped, Batch(s.group, events), g);
    if s.group == g {
      assert PoppedOf(w.popped, g) + events + [] == PoppedOf(w.popped, g) + events;
    }
  }

  lemma StepTriggered(c: Config, w: Worker, s: Step, g: string)
    requires Triggered(c, w, g) && Enabled(w, s)
    ensures Triggered(c, Next(c, w, s), g)
  {
  }

  lemma StepOneGroup(c: Config, w: Worker, s: Step)
    requires Consistent(w.acc) && OneGroupEach(w) && Enabled(w, s)
    ensures Consistent(Next(c, w, s).acc) && OneGroupEach(Next(c, w, s))
  {
  }

  /** Every step keeps the invariant, whichever task takes it. */
  lemma StepKeepsInv(c: Config, w: Worker, s: Step)
    requires Inv(c, w) && Enabled(w, s)
    ensures Inv(c, Next(c, w, s))
  {
    var w' := Next(c, w, s);
    StepOneGroup(c, w, s);
    forall g ensures Conserves(w', g) {
      assert Conserves(w, g);
      match s {
        case Deliver(_, _) => DeliverConserves(c, w, s, g);
        case RunTrigger(_) => RunTriggerConserves(c, w, s, g);
        case _ =>
      }
    }
    forall g ensures Triggered(c, w', g) {
      assert Triggered(c, w, g);
      StepTriggered(c, w, s, g);
    }
  }

  lemma StartInv(c: Config)
    ensures Inv(c, START)
  {
    forall g ensures Conserves(START, g) {
      assert EventsOf([]) == [] + [];
    }
  }

  /** The invariant holds in every state of every run. */
  lemma {:induction false} RunsKeepInv(c: Config, states: seq<Worker>, steps: seq<Step>, n: nat)
    requires IsRun(c, states, steps) && n < |states|
    ensures Inv(c, states[n])
  {
    if n == 0 {
      StartInv(c);
    } else {
      RunsKeepInv(c, states, steps, n - 1);
      StepKeepsInv(c, states[n - 1], steps[n - 1]);
    }
  }

  lemma {:induction false} NothingLost(c: Config, states: seq<Worker>, steps: seq<Step>, n: nat)
    requires IsRun(c, states, steps) && n < |states|
    requires forall i :: 0 <= i < n && steps[i].Acknowledge? ==> steps[i].ok
    ensures states[n].lost == {}
  {
    if n > 0 { NothingLost(c, states, steps, n - 1); }
  }

  /**
   As long as no acknowledgement fails, every group at or over the threshold has a trigger task
   outstanding whenever the message loop is between messages; so once all tasks have run, every group
   is below the threshold.
   */
  lemma OverThresholdIsTriggered(c: Config, states: seq<Worker>, steps: seq<Step>, n: nat, g: string)
    requires IsRun(c, states, steps) && n < |states| && states[n].phase == Idle
    requires forall i :: 0 <= i < n && steps[i].Acknowledge? ==> steps[i].ok
    ensures |Pending(states[n].acc, g)| >= Max(1, c.minEpisodes) ==> g in states[n].triggers
    ensures states[n].triggers == multiset{} ==> |Pending(states[n].acc, g)| < Max(1, c.minEpisodes)
  {
    RunsKeepInv(c, states, steps, n);
    NothingLost(c, states, steps, n);
    assert Triggered(c, states[n], g);
  }

  /** The acknowledgement of a message that took the group to the threshold fails. */
  predicate DropsTrigger(w: Worker, s: Step, g: string) {
    s == Acknowledge(false) && w.phase == Added(Some(g))
  }

  /** The step creates a trigger for the group. */
  predicate Creates(c: Config, w: Worker, s: Step, g: string) {
    (s == Acknowledge(true) && w.phase == Added(Some(g))) || (s.ScanTimeouts? && g in TimedOut(w.acc, s.now, c.maxWait))
  }

  /**
   Step j failed to acknowledge a message of the group while no trigger was outstanding, and no step
   since has created one.
   */
  ghost predicate StrandedAt(c: Config, states: seq<Worker>, steps: seq<Step>, n: nat, g: string, j: nat)
    requires IsRun(c, states, steps) && n < |states|
  {
    && j < n && DropsTrigger(states[j], steps[j], g) && g !in states[j].triggers
    && forall k :: j < k < n ==> !Creates(c, states[k], steps[k], g)
  }

  lemma {:induction false} LostSince(c: Config, states: seq<Worker>, steps: seq<Step>, n: nat, g: string)
    returns (j: nat)
    requires IsRun(c, states, steps) && n < |states| && g in states[n].lost
    ensures j < n && DropsTrigger(states[j], steps[j], g)
    ensures forall k :: j < k < n ==> steps[k] != RunTrigger(g)
  {
    if DropsTrigger(states[n - 1], steps[n - 1], g) {
      j := n - 1;
    } else {
      j := LostSince(c, states, steps, n - 1, g);
    }
  }

  /** Without a trigger at the end, there was none while nothing could have run it, and none was created. */
  lemma {:induction false} NoTriggerSince(c: Config, states: seq<Worker>, steps: seq<Step>, n: nat, g: string, j: nat)
    requires IsRun(c, states, steps) && j <= n < |states| && g !in states[n].triggers
    requires forall k :: j <= k < n ==> steps[k] != RunTrigger(g)
    ensures g !in states[j].triggers && forall k :: j <= k < n ==> !Creates(c, states[k], steps[k], g)
    decreases n
  {
    if j < n {
      TriggerStays(c, states[n - 1], steps[n - 1], g);
      NoTriggerSince(c, states, steps, n - 1, g, j);
    }
  }

  lemma TriggerStays(c: Config, w: Worker, s: Step, g: string)
    requires Enabled(w, s)
    ensures s != RunTrigger(g) ==> (g in Next(c, w, s).triggers <==> g in w.triggers || Creates(c, w, s, g))
    ensures g !in w.triggers ==> (g in Next(c, w, s).triggers <==> Creates(c, w, s, g))
  {
  }

  lemma {:induction false} StaysWithout(c: Config, states: seq<Worker>, steps: seq<Step>, n: nat, g: string, j: nat)
    requires IsRun(c, states, steps) && j <= n < |states| && g !in states[j].triggers
    requires forall k :: j <= k < n ==> !Creates(c, states[k], steps[k], g)
    ensures g !in states[n].triggers
    decreases n
  {
    if j < n {
      StaysWithout(c, states, steps, n - 1, g, j);
      TriggerStays(c, states[n - 1], steps[n - 1], g);
    }
  }

  /**
   When the threshold promise fails, over every run: between messages, a group at or over the threshold
   is without a trigger if and only if the acknowledgement of one of its messages failed while no
   trigger was outstanding and neither an acknowledgement nor a timeout scan has created one since.
   */
  lemma StrandedIff(c: Config, states: seq<Worker>, steps: seq<Step>, n: nat, g: string)
    requires IsRun(c, states, steps) && n < |states| && states[n].phase == Idle
    requires |Pending(states[n].acc, g)| >= Max(1, c.minEpisodes)
    ensures g !in states[n].triggers <==> exists j: nat :: StrandedAt(c, states, steps, n, g, j)
  {
    if g !in states[n].triggers {
      RunsKeepInv(c, states, steps, n);
      assert Triggered(c, states[n], g);
      var j := LostSince(c, states, steps, n, g);
      NoTriggerSince(c, states, steps, n, g, j);
      assert StrandedAt(c, states, steps, n, g, j);
    }
    if j: nat :| StrandedAt(c, states, steps, n, g, j) {
      assert !Creates(c, states[j], steps[j], g);
      StaysWithout(c, states, steps, n, g, j);
    }
  }

  /** With a threshold of one, a single message whose acknowledgement fails leaves its group stranded. */
  lemma FailedAcknowledgementStrands(e: Event, now: real)
    requires Accepted(Decoded(e))
    ensures var c, steps := Config(1, 300.0), [Deliver(Decoded(e), now), Acknowledge(false)];
            exists states: seq<Worker> :: && IsRun(c, states, steps) && states[2].phase == Idle
                             && |Pending(states[2].acc, e.group)| == 1 && e.group !in states[2].triggers
  {
    var c, steps := Config(1, 300.0), [Deliver(Decoded(e), now), Acknowledge(false)];
    var added := Next(c, START, steps[0]);
    var states := [START, added, Next(c, added, steps[1])];
    assert Pending(added.acc, e.group) == [e];
    assert IsRun(c, states, steps);
  }

  /** A popped batch holds one group's events in arrival order: they are a stretch of that group's arrivals. */
  lemma {:induction false} BatchIsStretch(popped: seq<Batch>, i: nat)
    requires i < |popped|
    ensures var g := popped[i].group;
            exists before, after :: PoppedOf(popped, g) == before + popped[i].events + after &&
              before == PoppedOf(popped[..i], g)
    decreases |popped|
  {
    var g, n := popped[i].group, |popped| - 1;
    assert popped == popped[..n] + [popped[n]];
    PoppedAppend(popped[..n], popped[n], g);
    if i == n {
      assert PoppedOf(popped, g) == PoppedOf(popped[..i], g) + popped[i].events + [];
    } else {
      BatchIsStretch(popped[..n], i);
      assert popped[..n][..i] == popped[..i];
      var before, after :| PoppedOf(popped[..n], g) == before + popped[i].events + after &&
        before == PoppedOf(popped[..i], g);
      var last := if popped[n].group == g then popped[n].events else [];
      assert PoppedOf(popped, g) == before + popped[i].events + (after + last);
    }
  }

  /**
   Over every run, each group's accepted events are, in order, its popped batches and its pending
   list: nothing is dropped, repeated, reordered or handed to another group.
   */
  lemma EventsAreConserved(c: Config, states: seq<Worker>, steps: seq<Step>, n: nat, g: string)
    requires IsRun(c, states, steps) && n < |states|
    ensures Conserves(states[n], g) && Consistent(states[n].acc) && OneGroupEach(states[n])
  {
    RunsKeepInv(c, states, steps, n);
  }

  /** A timeout scan picks a group exactly when its oldest pending event has waited longer than the limit. */
  lemma ScanPicksWaitingGroups(c: Config, states: seq<Worker>, steps: seq<Step>, n: nat, g: string, now: real)
    requires IsRun(c, states, steps) && n < |states|
    ensures var w := states[n];
            var all, done := ArrivalsOf(w.arrivals, g), |PoppedOf(w.popped, g)|;
            g in TimedOut(w.acc, now, c.maxWait) <==> done < |all| && now - all[done].at > c.maxWait
  {
    RunsKeepInv(c, states, steps, n);
    var w := states[n];
    assert Conserves(w, g);
    assert |ArrivalsOf(w.arrivals, g)| == |PoppedOf(w.popped, g)| + |Pending(w.acc, g)|;
  }
}
