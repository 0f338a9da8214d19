/**
 * `log_bat_state` and `GracefulKiller` (batmeter.py:29-37, 58-87), and the
 * skip policy `skip_power_zero` (batmeter.py:124-129).
 *
 * The outside world is an `Env`: what each `uevent` file holds at each read,
 * what `time()` says at each read, and whether a SIGINT or SIGTERM has come
 * in before each test of the loop condition. Reads are numbered in the order
 * the program makes them: the first read of `bat_list[0]` is read 0.
 */
module Sampling {
  import opened Wrappers
  import opened Seqs
  import opened DeviceReader
  import opened Store

  /** `GracefulKiller`: the flag that SIGINT and SIGTERM raise. */
  class GracefulKiller {
    var killNow: bool

    /** A new killer has not been signalled (the class default is false). */
    constructor ()
      ensures !killNow
    {
      killNow := false;
    }

    /** `exit_gracefully`: the flag is up afterwards, whatever it was before. */
    method ExitGracefully(signum: int)
      modifies this
      ensures killNow
    {
      killNow := true;
    }
  }

  /**
   * `sysfs(t, bat)`: the `uevent` file of `bat` at read `t` (`None` when it
   * cannot be opened); `clock(t)`: `str(time())` at read `t`; `signal(n)`: a
   * signal came in after `n` sweeps and before the next test of the loop.
   */
  datatype Env = Env(
    sysfs: (nat, string) -> Option<seq<string>>,
    clock: nat -> string,
    signal: nat -> bool)

  /**
   * What the loop needs of the outside world: the result of each read and
   * the signals. The lemmas below hold for any `read`.
   */
  datatype World = World(read: (nat, string) -> Result<Uevent, ParseError>, signal: nat -> bool)

  /** `w` is what `env` looks like: read `t` of `bat` is `read_bat_state(bat)` on the file as it is then. */
  ghost predicate Observes(w: World, env: Env)
  {
    && w.signal == env.signal
    && forall t: nat, bat: string {:trigger env.sysfs(t, bat)} ::
         w.read(t, bat) == ParseUevent(env.sysfs(t, bat), env.clock(t))
  }

  function WorldOf(env: Env): (w: World)
    ensures Observes(w, env)
  {
    World((t: nat, bat: string) => ParseUevent(env.sysfs(t, bat), env.clock(t)), env.signal)
  }

  /** `read_bat_state(bat_name)` at read `t`. */
  method ReadDevice(env: Env, ghost w: World, t: nat, bat: string) returns (r: Result<Uevent, ParseError>)
    requires Observes(w, env)
    ensures r == ReadAt(w, t, bat)
  {
    r := ReadBatState(env.sysfs(t, bat), env.clock(t));
  }

  function ReadAt(w: World, t: nat, bat: string): Result<Uevent, ParseError>
  {
    w.read(t, bat)
  }

  /** The readings of one sweep over `bats` from read `t` on, up to the first failure. */
  datatype Sweep = Sweep(readings: seq<Uevent>, failure: Option<ParseError>)

  function ReadSweep(w: World, t: nat, bats: seq<string>): (s: Sweep)
    ensures |s.readings| <= |bats|
    ensures s.failure.None? ==> |s.readings| == |bats|
  {
    if bats == [] then Sweep([], None)
    else
      var s := ReadSweep(w, t, bats[..|bats| - 1]);
      if s.failure.Some? then s
      else
        match ReadAt(w, t + |bats| - 1, bats[|bats| - 1])
        case Failure(e) => Sweep(s.readings, Some(e))
        case Success(u) => Sweep(s.readings + [u], None)
  }

  /** The readings a skip callback lets through to the database, in order. */
  function Unskipped(readings: seq<Uevent>, skip: Uevent -> bool): seq<Uevent>
  {
    Filter(readings, u => !skip(u))
  }

  lemma UnskippedMembers(readings: seq<Uevent>, skip: Uevent -> bool)
    ensures forall u :: u in Unskipped(readings, skip) <==> u in readings && !skip(u)
  {
    FilterMembers(readings, u => !skip(u));
  }

  datatype LogError = EmptyBatteryList | ReadFailed(cause: ParseError)

  /** Where the loop stands before a test of its condition. */
  datatype Progress = Progress(t: nat, stored: seq<Uevent>, seen: Uevent)

  /** How a logging run ends, and what it added to the database. */
  datatype LogOutcome =
    | Stopped(stored: seq<Uevent>, sweeps: nat)
    | Failed(stored: seq<Uevent>, error: LogError)

  /**
   * The loop from its `n`-th test on. `bound` is a test at which a signal
   * has come in: the run ends by then at the latest.
   */
  function RunFrom(w: World, bats: seq<string>, endCb: Uevent -> bool, skip: Uevent -> bool,
                   n: nat, p: Progress, bound: nat): LogOutcome
    requires bats != [] && n <= bound && w.signal(bound)
    decreases bound - n
  {
    if endCb(p.seen) || w.signal(n) then Stopped(p.stored, n)
    else
      var s := ReadSweep(w, p.t, bats);
      if s.failure.Some? then Failed(p.stored + Unskipped(s.readings, skip), ReadFailed(s.failure.value))
      else RunFrom(w, bats, endCb, skip, n + 1, Advance(w, bats, skip, p), bound)
  }

  /** Where a sweep that read every device leaves the loop. */
  function Advance(w: World, bats: seq<string>, skip: Uevent -> bool, p: Progress): Progress
    requires bats != [] && ReadSweep(w, p.t, bats).failure.None?
  {
    var s := ReadSweep(w, p.t, bats);
    Progress(p.t + |bats|, p.stored + Unskipped(s.readings, skip), s.readings[|bats| - 1])
  }

  /** A whole call of `log_bat_state`. */
  function Log(w: World, bats: seq<string>, endCb: Uevent -> bool, skip: Uevent -> bool, bound: nat): LogOutcome
    requires w.signal(bound)
  {
    if bats == [] then Failed([], EmptyBatteryList)
    else
      match ReadAt(w, 0, bats[0])
      case Failure(e) => Failed([], ReadFailed(e))
      case Success(u) => RunFrom(w, bats, endCb, skip, 0, Progress(1, [], u), bound)
  }

  /**
   * `log_bat_state`: reads every battery in turn, inserts each reading the
   * skip callback does not reject, and repeats until `end_cb` accepts the
   * latest reading or a signal has raised the killer's flag. Returns the
   * number of inserted readings it reports, or the error it raises; the
   * database keeps what was inserted before an error.
   */
  method LogBatState(db: RecordStore, env: Env, ghost w: World, bats: seq<string>,
                     endCb: Uevent -> bool, skipCb: Uevent -> bool, ghost bound: nat)
    returns (r: Result<nat, LogError>)
    requires Observes(w, env) && env.signal(bound)
    modifies db
    ensures var out := Log(w, bats, endCb, skipCb, bound);
      && db.records == old(db.records) + out.stored
      && (out.Stopped? ==> r == Success(|out.stored|))
      && (out.Failed? ==> r == Failure(out.error))
    ensures r.Success? ==> r.value == |db.records| - |old(db.records)|
  {
    if bats == [] {
      return Failure(EmptyBatteryList);
    }
    var first := ReadDevice(env, w, 0, bats[0]);
    if first.Failure? {
      return Failure(ReadFailed(first.error));
    }
    var killer := new GracefulKiller();
    if env.signal(0) {
      killer.ExitGracefully(2);
    }
    r := SampleLoop(db, env, w, killer, bats, endCb, skipCb, first.value, bound);
  }

  /**
   * The `while` loop of `log_bat_state`, entered with the first device's
   * reading: sweeps until `end_cb` accepts the latest reading or the
   * killer's flag is up, and counts the inserted readings.
   */
  method SampleLoop(db: RecordStore, env: Env, ghost w: World, killer: GracefulKiller, bats: seq<string>,
                    endCb: Uevent -> bool, skipCb: Uevent -> bool, first: Uevent, ghost bound: nat)
    returns (r: Result<nat, LogError>)
    requires bats != [] && Observes(w, env) && env.signal(bound)
    requires killer.killNow == env.signal(0)
    modifies db, killer
    ensures var out := RunFrom(w, bats, endCb, skipCb, 0, Progress(1, [], first), bound);
      && db.records == old(db.records) + out.stored
      && (out.Stopped? ==> r == Success(|out.stored|))
      && (out.Failed? ==> r == Failure(out.error))
  {
    var counter := 0;
    var uevent := first;
    var n: nat, t: nat := 0, 1;
    ghost var p := Progress(1, [], first);
    ghost var out := RunFrom(w, bats, endCb, skipCb, 0, p, bound);
    while !endCb(uevent) && !killer.killNow
      invariant n <= bound
      invariant killer.killNow == env.signal(n)
      invariant p.t == t && p.seen == uevent
      invariant db.records == old(db.records) + p.stored
      invariant counter == |p.stored|
      invariant out == RunFrom(w, bats, endCb, skipCb, n, p, bound)
      decreases bound - n
    {
      var last, inserted, failure, next := LoopSweep(db, env, w, bats, endCb, skipCb, t, n, p, bound, old(db.records));
      counter := counter + inserted;
      p := next;
      if failure.Some? {
        return Failure(ReadFailed(failure.value));
      }
      uevent := last;
      t, n := t + |bats|, n + 1;
      if env.signal(n) {
        killer.ExitGracefully(2);
      }
    }
    return Success(counter);
  }

  /**
   * One sweep of the `while` loop after a test that did not stop it: the
   * database, which held `base` and the run's readings so far, gains the
   * sweep's unskipped readings, and the run goes on from `next` or ends.
   */
  method LoopSweep(db: RecordStore, env: Env, ghost w: World, bats: seq<string>, endCb: Uevent -> bool,
                   skipCb: Uevent -> bool, t: nat, ghost n: nat, ghost p: Progress, ghost bound: nat,
                   ghost base: seq<Uevent>)
    returns (last: Uevent, inserted: nat, failure: Option<ParseError>, ghost next: Progress)
    requires bats != [] && Observes(w, env) && n <= bound && env.signal(bound)
    requires p.t == t && !endCb(p.seen) && !env.signal(n)
    requires db.records == base + p.stored
    modifies db
    ensures db.records == base + next.stored
    ensures |next.stored| == |p.stored| + inserted
    ensures next.t == t + |bats| && next.seen == last
    ensures failure.Some? ==> RunFrom(w, bats, endCb, skipCb, n, p, bound) == Failed(next.stored, ReadFailed(failure.value))
    ensures failure.None? ==> n + 1 <= bound && RunFrom(w, bats, endCb, skipCb, n, p, bound) == RunFrom(w, bats, endCb, skipCb, n + 1, next, bound)
  {
    ghost var kept := Unskipped(ReadSweep(w, t, bats).readings, skipCb);
    RunFromStep(w, bats, endCb, skipCb, n, p, bound);
    last, inserted, failure := SweepOnce(db, env, w, t, bats, skipCb);
    next := Progress(t + |bats|, p.stored + kept, last);
    assert db.records == base + next.stored;
    if failure.None? {
      assert Advance(w, bats, skipCb, p) == next;
    }
  }

  /**
   * One pass of the `for bat_name in bat_list` loop, from read `t` on: reads
   * each battery, inserts the reading unless `skip_cb` accepts it, and stops
   * at the first read that raises. Returns the last reading, how many
   * readings it inserted and the error, if any.
   */
  method SweepOnce(db: RecordStore, env: Env, ghost w: World, t: nat, bats: seq<string>, skipCb: Uevent -> bool)
    returns (last: Uevent, inserted: nat, failure: Option<ParseError>)
    requires bats != [] && Observes(w, env)
    modifies db
    ensures var s := ReadSweep(w, t, bats);
      && db.records == old(db.records) + Unskipped(s.readings, skipCb)
      && inserted == |Unskipped(s.readings, skipCb)|
      && failure == s.failure
      && (failure.None? ==> last == s.readings[|bats| - 1])
  {
    inserted := 0;
    last := map[];
    ghost var readings: seq<Uevent> := [];
    var j: nat := 0;
    while j < |bats|
      invariant j <= |bats|
      invariant ReadSweep(w, t, bats[..j]) == Sweep(readings, None)
      invariant db.records == old(db.records) + Unskipped(readings, skipCb)
      invariant inserted == |Unskipped(readings, skipCb)|
      invariant j > 0 ==> last == readings[j - 1]
    {
      var uevent, added := ReadAndStore(db, env, w, t, bats, j, skipCb, old(db.records), readings);
      if uevent.Failure? {
        return last, inserted, Some(uevent.error);
      }
      last := uevent.value;
      readings := readings + [last];
      inserted := inserted + added;
      j := j + 1;
    }
    assert bats[..|bats|] == bats;
    failure := None;
  }

  /**
   * The body of the `for` loop for device `j`: reads it and inserts the
   * reading unless `skip_cb` accepts it. The database, which held `base`
   * and the sweep's unskipped readings so far, then holds those of the
   * sweep one device further, or is unchanged when the read raises.
   */
  method ReadAndStore(db: RecordStore, env: Env, ghost w: World, t: nat, bats: seq<string>, j: nat,
                      skipCb: Uevent -> bool, ghost base: seq<Uevent>, ghost readings: seq<Uevent>)
    returns (uevent: Result<Uevent, ParseError>, added: nat)
    requires j < |bats| && Observes(w, env)
    requires ReadSweep(w, t, bats[..j]) == Sweep(readings, None)
    requires db.records == base + Unskipped(readings, skipCb)
    modifies db
    ensures uevent.Failure? ==>
      && ReadSweep(w, t, bats) == Sweep(readings, Some(uevent.error))
      && db.records == base + Unskipped(readings, skipCb)
    ensures uevent.Success? ==>
      && ReadSweep(w, t, bats[..j + 1]) == Sweep(readings + [uevent.value], None)
      && db.records == base + Unskipped(readings + [uevent.value], skipCb)
      && |Unskipped(readings + [uevent.value], skipCb)| == |Unskipped(readings, skipCb)| + added
  {
    uevent := ReadDevice(env, w, t + j, bats[j]);
    if uevent.Failure? {
      SweepFailsAt(w, t, bats, j, readings, uevent.error);
      return uevent, 0;
    }
    var u := uevent.value;
    SweepReadsAt(w, t, bats, j, readings, u);
    UnskippedSnoc(readings, u, skipCb);
    if skipCb(u) {
      added := 0;
    } else {
      db.Insert(u);
      added := 1;
      assert db.records == base + (Unskipped(readings, skipCb) + [u]);
    }
  }

  /** A read that raises at device `j` of a sweep whose first `j` reads succeeded ends the sweep. */
  lemma SweepFailsAt(w: World, t: nat, bats: seq<string>, j: nat, readings: seq<Uevent>, e: ParseError)
    requires j < |bats| && ReadSweep(w, t, bats[..j]) == Sweep(readings, None)
    requires ReadAt(w, t + j, bats[j]) == Failure(e)
    ensures ReadSweep(w, t, bats) == Sweep(readings, Some(e))
  {
    assert bats[..j + 1][..j] == bats[..j];
    ReadSweepFailurePersists(w, t, bats, j + 1);
  }

  /** A read that succeeds at device `j` extends the sweep of the first `j` devices by one reading. */
  lemma SweepReadsAt(w: World, t: nat, bats: seq<string>, j: nat, readings: seq<Uevent>, u: Uevent)
    requires j < |bats| && ReadSweep(w, t, bats[..j]) == Sweep(readings, None)
    requires ReadAt(w, t + j, bats[j]) == Success(u)
    ensures ReadSweep(w, t, bats[..j + 1]) == Sweep(readings + [u], None)
  {
    assert bats[..j + 1][..j] == bats[..j];
  }

  /** One more reading reaches the database unless the skip callback accepts it. */
  lemma UnskippedSnoc(readings: seq<Uevent>, u: Uevent, skip: Uevent -> bool)
    ensures Unskipped(readings + [u], skip) == Unskipped(readings, skip) + if skip(u) then [] else [u]
  {
    assert (readings + [u])[..|readings|] == readings;
  }

  /** Once a read of a sweep fails, the sweep reads nothing more. */
  lemma {:induction false} ReadSweepFailurePersists(w: World, t: nat, bats: seq<string>, k: nat)
    requires k <= |bats| && ReadSweep(w, t, bats[..k]).failure.Some?
    ensures ReadSweep(w, t, bats) == ReadSweep(w, t, bats[..k])
    decreases |bats|
  {
    if k < |bats| {
      var init := bats[..|bats| - 1];
      assert init[..k] == bats[..k];
      ReadSweepFailurePersists(w, t, init, k);
    } else {
      assert bats[..k] == bats;
    }
  }

  /**
   * A sweep reads the devices in list order, device `i` at read `t + i`,
   * and stops at the first read that fails.
   */
  lemma {:induction false} ReadSweepReadings(w: World, t: nat, bats: seq<string>)
    ensures var s := ReadSweep(w, t, bats);
      && (forall i :: 0 <= i < |s.readings| ==> ReadAt(w, t + i, bats[i]) == Success(s.readings[i]))
      && (s.failure.Some? ==>
            |s.readings| < |bats| && ReadAt(w, t + |s.readings|, bats[|s.readings|]) == Failure(s.failure.value))
  {
    if bats != [] {
      var init := bats[..|bats| - 1];
      ReadSweepReadings(w, t, init);
      assert forall i :: 0 <= i < |init| ==> bats[i] == init[i];
    }
  }

  /**
   * A sweep inserts a reading exactly when the skip callback does not
   * reject it, and only readings of that sweep.
   */
  lemma SweepStoresUnskipped(w: World, t: nat, bats: seq<string>, skip: Uevent -> bool)
    ensures var s := ReadSweep(w, t, bats);
      forall u :: u in Unskipped(s.readings, skip) <==>
        !skip(u) && exists i :: 0 <= i < |s.readings| && ReadAt(w, t + i, bats[i]) == Success(u)
  {
    var s := ReadSweep(w, t, bats);
    ReadSweepReadings(w, t, bats);
    UnskippedMembers(s.readings, skip);
    forall u
      ensures u in s.readings <==> exists i :: 0 <= i < |s.readings| && ReadAt(w, t + i, bats[i]) == Success(u)
    {
      if u in s.readings {
        var i :| 0 <= i < |s.readings| && s.readings[i] == u;
        assert ReadAt(w, t + i, bats[i]) == Success(u);
      }
      if exists i :: 0 <= i < |s.readings| && ReadAt(w, t + i, bats[i]) == Success(u) {
        var i :| 0 <= i < |s.readings| && ReadAt(w, t + i, bats[i]) == Success(u);
        assert s.readings[i] == u;
      }
    }
  }

  /**
   * After a sweep that read every device, the next test of `end_cb` sees
   * the reading of the last device of the list, not of the first; the
   * database has gained that sweep's unskipped readings.
   */
  lemma AdvanceSeesLastDevice(w: World, bats: seq<string>, skip: Uevent -> bool, p: Progress)
    requires bats != [] && ReadSweep(w, p.t, bats).failure.None?
    ensures ReadAt(w, p.t + |bats| - 1, bats[|bats| - 1]).Success?
    ensures Advance(w, bats, skip, p).seen == ReadAt(w, p.t + |bats| - 1, bats[|bats| - 1]).value
    ensures Advance(w, bats, skip, p).stored == p.stored + Unskipped(ReadSweep(w, p.t, bats).readings, skip)
  {
    ReadSweepReadings(w, p.t, bats);
    var last := |bats| - 1;
    assert ReadAt(w, p.t + last, bats[last]) == Success(ReadSweep(w, p.t, bats).readings[last]);
  }

  /**
   * Before the first sweep `end_cb` sees the reading of the first device,
   * and the loop makes no sweep when it accepts it or a signal came first.
   */
  lemma LogFirstTest(w: World, bats: seq<string>, endCb: Uevent -> bool, skip: Uevent -> bool, bound: nat)
    requires w.signal(bound) && bats != [] && ReadAt(w, 0, bats[0]).Success?
    ensures var u := ReadAt(w, 0, bats[0]).value;
      && Log(w, bats, endCb, skip, bound) == RunFrom(w, bats, endCb, skip, 0, Progress(1, [], u), bound)
      && (endCb(u) || w.signal(0) ==> Log(w, bats, endCb, skip, bound) == Stopped([], 0))
  {
  }

  /** With a skip callback that rejects nothing, every sweep stores one reading per device. */
  lemma {:induction false} RunFromStoresAll(w: World, bats: seq<string>, endCb: Uevent -> bool, skip: Uevent -> bool,
                                            n: nat, p: Progress, bound: nat)
    requires bats != [] && n <= bound && w.signal(bound)
    requires forall u :: !skip(u)
    requires |p.stored| == n * |bats|
    ensures var out := RunFrom(w, bats, endCb, skip, n, p, bound);
      out.Stopped? ==> out.sweeps >= n && |out.stored| == out.sweeps * |bats|
    decreases bound - n
  {
    if !(endCb(p.seen) || w.signal(n)) && ReadSweep(w, p.t, bats).failure.None? {
      var q := Advance(w, bats, skip, p);
      RunFromStep(w, bats, endCb, skip, n, p, bound);
      AdvanceStoresAll(w, bats, skip, p);
      SweepCountStep(|p.stored|, n, |bats|);
      RunFromStoresAll(w, bats, endCb, skip, n + 1, q, bound);
    }
  }

  /** One more full sweep of `k` devices after `n` of them. */
  lemma SweepCountStep(stored: nat, n: nat, k: nat)
    requires stored == n * k
    ensures stored + k == (n + 1) * k
  {
  }

  /**
   * One test of the loop that does not stop it: the sweep either raises,
   * ending the run with the readings inserted before, or reads every device
   * and leads to the next test with the last device's reading.
   */
  lemma RunFromStep(w: World, bats: seq<string>, endCb: Uevent -> bool, skip: Uevent -> bool,
                    n: nat, p: Progress, bound: nat)
    requires bats != [] && n <= bound && w.signal(bound)
    requires !endCb(p.seen) && !w.signal(n)
    ensures ReadSweep(w, p.t, bats).failure.Some? ==>
      RunFrom(w, bats, endCb, skip, n, p, bound) ==
      Failed(p.stored + Unskipped(ReadSweep(w, p.t, bats).readings, skip), ReadFailed(ReadSweep(w, p.t, bats).failure.value))
    ensures ReadSweep(w, p.t, bats).failure.None? ==>
      n + 1 <= bound && RunFrom(w, bats, endCb, skip, n, p, bound) == RunFrom(w, bats, endCb, skip, n + 1, Advance(w, bats, skip, p), bound)
  {
  }

  /** A full sweep with nothing skipped stores one reading per device. */
  lemma AdvanceStoresAll(w: World, bats: seq<string>, skip: Uevent -> bool, p: Progress)
    requires bats != [] && ReadSweep(w, p.t, bats).failure.None?
    requires forall u :: !skip(u)
    ensures |Advance(w, bats, skip, p).stored| == |p.stored| + |bats|
  {
    FilterAll(ReadSweep(w, p.t, bats).readings, u => !skip(u));
  }

  /** N completed sweeps with nothing skipped add exactly N times the number of devices. */
  lemma NeverSkipStoresAll(w: World, bats: seq<string>, endCb: Uevent -> bool, skip: Uevent -> bool, bound: nat)
    requires w.signal(bound)
    requires forall u :: !skip(u)
    ensures var out := Log(w, bats, endCb, skip, bound);
      out.Stopped? ==> |out.stored| == out.sweeps * |bats|
  {
    if bats != [] && ReadAt(w, 0, bats[0]).Success? {
      RunFromStoresAll(w, bats, endCb, skip, 0, Progress(1, [], ReadAt(w, 0, bats[0]).value), bound);
    }
  }

  /** `skip_power_zero`: raises `KeyError` without `POWER_NOW`, else compares it with `"0"`. */
  function SkipPowerZero(u: Uevent): (r: Result<bool, KeyError>)
    ensures r.Failure? <==> "POWER_NOW" !in u
    ensures r == Success(true) <==> "POWER_NOW" in u && u["POWER_NOW"] == "0"
  {
    if "POWER_NOW" !in u then Failure(KeyError("POWER_NOW"))
    else Success(u["POWER_NOW"] == "0")
  }

  /** `skip_power_zero` as a callback that answers true. */
  predicate SkipsPowerZero(u: Uevent)
  {
    SkipPowerZero(u) == Success(true)
  }

  /** Of readings that report a power, exactly those whose power is not "0" reach the database. */
  lemma PowerZeroNotStored(readings: seq<Uevent>)
    requires forall u :: u in readings ==> "POWER_NOW" in u
    ensures forall u :: u in Unskipped(readings, SkipsPowerZero) <==> u in readings && u["POWER_NOW"] != "0"
  {
    UnskippedMembers(readings, SkipsPowerZero);
  }
}
