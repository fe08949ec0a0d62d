/**
 Whole runs of the backup daemon, serialised: a sequence of attach events,
 polling passes and copy completions applied to the registry in order. The
 central property is that a device is backed up at most once per
 stay in the registry.
 */
module Lifecycle {
  import opened Normalizer
  import opened Devices
  import opened Backup
  import opened Registry

  /**
   The three kinds of step: a partition attaches at time `now`, the polling
   loop passes at time `now` with the formatted timestamp, or the copy for
   `id` exits.
   */
  datatype Event =
    | Attached(p: Partition, now: nat)
    | Ticked(now: nat, timestamp: string)
    | Completed(id: string)

  /** The registry after one event. */
  function Next(reg: Registry, e: Event, timeout: int): (r: Registry)
    requires Wf(reg)
    ensures Wf(r)
  {
    match e
    case Attached(p, now) => Attach(reg, p, now)
    case Ticked(now, _) => MarkEligible(reg, now, timeout)
    case Completed(id) => Complete(reg, id)
  }

  /** The ids whose copies one event launches: the holders a pass finds eligible, and none otherwise. */
  function LaunchedBy(reg: Registry, e: Event, timeout: int): set<string>
    requires Wf(reg)
  {
    if e.Ticked? then set k | k in reg && Eligible(reg[k], e.now, timeout) else {}
  }

  /** `Next` and `LaunchedBy` are exactly what a pass of `Tick` does to the registry and which copies it launches. */
  lemma NextIsTick(reg: Registry, now: nat, timestamp: string, timeout: int, fs: FileSystem)
    requires Wf(reg)
    ensures Next(reg, Ticked(now, timestamp), timeout) == Tick(reg, now, timeout, fs, timestamp).devices
    ensures LaunchedBy(reg, Ticked(now, timestamp), timeout) == Tick(reg, now, timeout, fs, timestamp).launched.Keys
  {
  }

  /**
   `states` is the run of `es` from `reg`: `states[m]` is the registry
   before the `m`-th event and the last entry the registry after all of
   them. Every registry of a run is well formed.
   */
  predicate IsRun(reg: Registry, es: seq<Event>, timeout: int, states: seq<Registry>) {
    && |states| == |es| + 1
    && states[0] == reg
    && (forall m :: 0 <= m < |states| ==> Wf(states[m]))
    && (forall m {:trigger Next(states[m], es[m], timeout)} :: 0 <= m < |es| ==>
          states[m + 1] == Next(states[m], es[m], timeout))
  }

  /** The run of `es` from a well-formed registry. */
  function Run(reg: Registry, es: seq<Event>, timeout: int): (states: seq<Registry>)
    requires Wf(reg)
    ensures IsRun(reg, es, timeout, states)
    decreases |es|
  {
    if |es| == 0 then [reg]
    else
      var rest := Run(Next(reg, es[0], timeout), es[1..], timeout);
      var states := [reg] + rest;
      assert forall m {:trigger Next(states[m], es[m], timeout)} :: 0 < m < |es| ==>
               states[m] == rest[m - 1] && states[m + 1] == rest[m] && es[m] == es[1..][m - 1];
      states
  }

  /** The ids whose copies the `i`-th event of a run launched. */
  function LaunchedAt(states: seq<Registry>, es: seq<Event>, i: nat, timeout: int): set<string>
    requires i < |es| && i < |states| && Wf(states[i])
  {
    LaunchedBy(states[i], es[i], timeout)
  }

  /** `id` is registered and its holder is backed up. */
  predicate HeldBackedUp(reg: Registry, id: string) {
    id in reg && reg[id].backedUp
  }

  /** None of the events `es[i..n]` is the completion of `id`'s copy. */
  predicate NoCompletionOf(es: seq<Event>, id: string, i: nat, n: nat) {
    forall m :: i <= m < n && m < |es| ==> es[m] != Completed(id)
  }

  /** No single event other than the completion of its copy unregisters a backed-up holder or clears its flag. */
  lemma StepKeepsBackedUp(reg: Registry, e: Event, timeout: int, id: string)
    requires Wf(reg) && HeldBackedUp(reg, id)
    ensures e != Completed(id) ==> HeldBackedUp(Next(reg, e, timeout), id)
  {
  }

  /**
   The backed-up flag is one-way: once set, the holder stays registered and
   backed up through every later event of a run other than the completion of
   its own copy. A failed launch, whose completion never comes, leaves it so
   forever.
   */
  lemma {:induction false} StaysBackedUp(reg: Registry, es: seq<Event>, timeout: int,
                                         states: seq<Registry>, id: string, i: nat, n: nat)
    requires IsRun(reg, es, timeout, states)
    requires i <= n <= |es|
    requires HeldBackedUp(states[i], id) && NoCompletionOf(es, id, i, n)
    ensures HeldBackedUp(states[n], id)
    decreases n - i
  {
    if n > i {
      StaysBackedUp(reg, es, timeout, states, id, i, n - 1);
      StepKeepsBackedUp(states[n - 1], es[n - 1], timeout, id);
    }
  }

  /** The event that launches a copy for `id` leaves its holder backed up. */
  lemma LaunchMarks(reg: Registry, es: seq<Event>, timeout: int,
                    states: seq<Registry>, id: string, i: nat)
    requires IsRun(reg, es, timeout, states)
    requires i < |es| && id in LaunchedAt(states, es, i, timeout)
    ensures HeldBackedUp(states[i + 1], id)
  {
    assert states[i + 1] == Next(states[i], es[i], timeout);
  }

  /** No event of a run launches a copy for a holder that is already backed up. */
  lemma BackedUpNotLaunched(reg: Registry, es: seq<Event>, timeout: int,
                            states: seq<Registry>, id: string, j: nat)
    requires IsRun(reg, es, timeout, states)
    requires j < |es| && HeldBackedUp(states[j], id)
    ensures id !in LaunchedAt(states, es, j, timeout)
  {
  }

  /**
   At most one backup per stay: if, in a run, the copy for `id` is launched
   by the `i`-th and again by the `j`-th event, the first copy completed
   (and the holder was removed) in between.
   */
  lemma AtMostOnceBetweenCompletions(reg: Registry, es: seq<Event>, timeout: int,
                                     states: seq<Registry>, id: string, i: nat, j: nat)
    requires IsRun(reg, es, timeout, states)
    requires i < j < |es|
    requires id in LaunchedAt(states, es, i, timeout) && id in LaunchedAt(states, es, j, timeout)
    ensures exists m :: i < m < j && es[m] == Completed(id)
  {
    if NoCompletionOf(es, id, i + 1, j) {
      LaunchMarks(reg, es, timeout, states, id, i);
      StaysBackedUp(reg, es, timeout, states, id, i + 1, j);
      BackedUpNotLaunched(reg, es, timeout, states, id, j);
      assert false;
    } else {
      var m :| i + 1 <= m < j && m < |es| && es[m] == Completed(id);
      assert i < m < j && es[m] == Completed(id);
    }
  }

  /** The events of the two-partition example. */
  function ExampleRun(ts: string): seq<Event> {
    [ Attached(Partition("sdc1", "BOOT", "/media/boot"), 0),
      Attached(Partition("sdc2", "ROOT", "/media/root"), 5),
      Ticked(1005, ts),
      Ticked(1006, ts) ]
  }

  /** The registry the example's two attaches build. */
  function ExampleRegistry(): Registry {
    map["sdc" := Holder("sdc", [Partition("sdc1", "BOOT", "/media/boot"), Partition("sdc2", "ROOT", "/media/root")], 5, false)]
  }

  /** The registry after the example's first attach. */
  function ExampleFirst(): Registry {
    map["sdc" := Holder("sdc", [Partition("sdc1", "BOOT", "/media/boot")], 0, false)]
  }

  /** `sdc1` creates the holder `sdc`. */
  lemma ExampleFirstAttach()
    ensures Next(map[], Attached(Partition("sdc1", "BOOT", "/media/boot"), 0), 1000) == ExampleFirst()
  {
    StripCharacterised("sdc1", "sdc");
  }

  /** `sdc2` joins the same holder, after `sdc1`. */
  lemma ExampleSecondAttach()
    ensures Next(ExampleFirst(), Attached(Partition("sdc2", "ROOT", "/media/root"), 5), 1000) == ExampleRegistry()
  {
    StripCharacterised("sdc2", "sdc");
    var p1 := Partition("sdc1", "BOOT", "/media/boot");
    var p2 := Partition("sdc2", "ROOT", "/media/root");
    assert [p1] + [p2] == [p1, p2];
  }

  /** Both attaches of the example land in one holder, `sdc`, in arrival order. */
  lemma ExampleGrouping(ts: string)
    ensures Run(map[], ExampleRun(ts), 1000)[2] == ExampleRegistry()
  {
    var es := ExampleRun(ts);
    var states := Run(map[], es, 1000);
    ExampleFirstAttach();
    ExampleSecondAttach();
    assert states[1] == Next(states[0], es[0], 1000);
    assert states[2] == Next(states[1], es[1], 1000);
  }

  /** Exactly 1000 ms after the last attach the holder is not yet processed; 1 ms later it is. */
  lemma ExampleTicks(ts: string)
    ensures MarkEligible(ExampleRegistry(), 1005, 1000) == ExampleRegistry()
    ensures LaunchedBy(ExampleRegistry(), Ticked(1005, ts), 1000) == {}
    ensures LaunchedBy(ExampleRegistry(), Ticked(1006, ts), 1000) == {"sdc"}
  {
    assert !Eligible(ExampleRegistry()["sdc"], 1005, 1000);
    assert Eligible(ExampleRegistry()["sdc"], 1006, 1000);
  }

  /**
   Two partitions of one disk, 5 ms apart, under a 1000 ms timeout: no pass
   launches a copy until more than 1000 ms after the second arrival; then
   exactly one copy, for `sdc`, starts.
   */
  lemma TwoPartitionsOneBackup(ts: string)
    ensures var states := Run(map[], ExampleRun(ts), 1000);
            && LaunchedAt(states, ExampleRun(ts), 2, 1000) == {}
            && LaunchedAt(states, ExampleRun(ts), 3, 1000) == {"sdc"}
  {
    var es := ExampleRun(ts);
    var states := Run(map[], es, 1000);
    assert es[2] == Ticked(1005, ts) && es[3] == Ticked(1006, ts);
    ExampleGrouping(ts);
    ExampleTicks(ts);
    assert states[3] == Next(states[2], es[2], 1000);
  }
}
