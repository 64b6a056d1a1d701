/**
 How the daemon keeps its session file up to date. Three tasks save the layout:
 a watcher saves after each layout event and raises the dirty flag, a debounce
 task saves every 5 seconds if the flag is up, and a periodic task saves every
 60 seconds. Taking a snapshot and writing it are separate steps, so saves of
 different tasks interleave.

 Layouts are numbered: version v is the layout after v changes.
 */
module SaveProtocol {

  datatype Watcher = Waiting | Received | Saving(snapshot: nat) | Marking

  // Woken: the debounce task has seen and cleared the flag.
  datatype Saver = Sleeping | Woken | Writing(snapshot: nat)

  datatype State = State(
    version: nat,       // the layout in memory
    announced: nat,     // the last version that came with an event
    file: nat,          // the version in the file
    unread: nat,        // layout events the watcher has still to receive
    dirty: bool,
    watcher: Watcher,
    debounce: Saver,
    periodic: Saver)

  datatype Step =
    | Announce                  // a change that sends an event
    | Silent                    // one that does not: split ratios, directories, pinning
    | Receive
    | Lag(lost: nat)            // the watcher is told that it missed events
    | WatcherSnapshot
    | WatcherWrite(ok: bool)
    | WatcherMark
    | DebounceTick              // five seconds are over: swap the flag
    | DebounceSnapshot
    | DebounceWrite(ok: bool)
    | PeriodicSnapshot
    | PeriodicWrite(ok: bool)

  predicate Enabled(s: State, step: Step) {
    match step
    case Announce => true
    case Silent => true
    case Receive => s.watcher == Waiting && s.unread > 0
    case Lag(lost) => s.watcher == Waiting && lost <= s.unread
    case WatcherSnapshot => s.watcher == Received
    case WatcherWrite(_) => s.watcher.Saving?
    case WatcherMark => s.watcher == Marking
    case DebounceTick => s.debounce == Sleeping
    case DebounceSnapshot => s.debounce == Woken
    case DebounceWrite(_) => s.debounce.Writing?
    case PeriodicSnapshot => s.periodic == Sleeping
    case PeriodicWrite(_) => s.periodic.Writing?
  }

  // A failed write is only logged.
  function Next(s: State, step: Step): State
    requires Enabled(s, step)
  {
    match step
    case Announce => s.(version := s.version + 1, announced := s.version + 1, unread := s.unread + 1)
    case Silent => s.(version := s.version + 1)
    case Receive => s.(unread := s.unread - 1, watcher := Received)
    case Lag(lost) => s.(unread := s.unread - lost, watcher := Marking)
    case WatcherSnapshot => s.(watcher := Saving(s.version))
    case WatcherWrite(ok) => s.(file := if ok then s.watcher.snapshot else s.file, watcher := Marking)
    case WatcherMark => s.(dirty := true, watcher := Waiting)
    case DebounceTick => s.(dirty := false, debounce := if s.dirty then Woken else Sleeping)
    case DebounceSnapshot => s.(debounce := Writing(s.version))
    case DebounceWrite(ok) => s.(file := if ok then s.debounce.snapshot else s.file, debounce := Sleeping)
    case PeriodicSnapshot => s.(periodic := Writing(s.version))
    case PeriodicWrite(ok) => s.(file := if ok then s.periodic.snapshot else s.file, periodic := Sleeping)
  }

  // The daemon has just saved when the tasks start.
  function Start(version: nat): State {
    State(version, version, version, 0, false, Waiting, Sleeping, Sleeping)
  }

  // ---------------------------------------------------------------------
  // Nothing announced is forgotten
  // ---------------------------------------------------------------------

  // The file holds every change that came with an event.
  predicate UpToDate(s: State) {
    s.file >= s.announced
  }

  // The watcher or the flag will still cause a save.
  predicate Flagged(s: State) {
    s.unread > 0 || s.dirty || s.watcher != Waiting
  }

  predicate Pending(s: State) {
    || Flagged(s)
    || s.debounce == Woken
    || (s.debounce.Writing? && s.debounce.snapshot >= s.announced)
  }

  predicate Covered(s: State) {
    UpToDate(s) || Pending(s)
  }

  predicate Sane(s: State) {
    && s.announced <= s.version && s.file <= s.version
    && (s.watcher.Saving? ==> s.watcher.snapshot <= s.version)
    && (s.debounce.Writing? ==> s.debounce.snapshot <= s.version)
    && (s.periodic.Writing? ==> s.periodic.snapshot <= s.version)
    // A change during the debounce save has left its mark.
    && (s.debounce.Writing? && s.debounce.snapshot < s.announced ==> Flagged(s))
  }

  // The two ways to forget a change: the periodic task puts an older layout back
  // after everybody else has finished, or the debounce task fails to write.
  predicate Loses(s: State, step: Step) {
    match step
    case PeriodicWrite(ok) => ok && s.periodic.Writing? && s.periodic.snapshot < s.announced && !Pending(s)
    case DebounceWrite(ok) => !ok && !UpToDate(s) && !Flagged(s)
    case _ => false
  }

  lemma StepLosesOrKeeps(s: State, step: Step)
    requires Sane(s) && Covered(s) && Enabled(s, step)
    ensures Sane(Next(s, step))
    ensures Covered(Next(s, step)) <==> !Loses(s, step)
  {
  }

  predicate Runs(s: State, run: seq<Step>)
    decreases |run|
  {
    run == [] || (Enabled(s, run[0]) && Runs(Next(s, run[0]), run[1..]))
  }

  function After(s: State, run: seq<Step>): State
    requires Runs(s, run)
    decreases |run|
  {
    if run == [] then s else After(Next(s, run[0]), run[1..])
  }

  predicate AlwaysCovered(s: State, run: seq<Step>)
    requires Runs(s, run)
    decreases |run|
  {
    Covered(s) && (run == [] || AlwaysCovered(Next(s, run[0]), run[1..]))
  }

  predicate NeverLoses(s: State, run: seq<Step>)
    requires Runs(s, run)
    decreases |run|
  {
    run == [] || (!Loses(s, run[0]) && NeverLoses(Next(s, run[0]), run[1..]))
  }

  // All along a run, either the file is up to date or a save is coming,
  // exactly if the run has no losing step.
  lemma {:induction false} CoveredUnlessLosing(s: State, run: seq<Step>)
    requires Sane(s) && Covered(s) && Runs(s, run)
    ensures AlwaysCovered(s, run) <==> NeverLoses(s, run)
    decreases |run|
  {
    if run != [] {
      StepLosesOrKeeps(s, run[0]);
      if !Loses(s, run[0]) {
        CoveredUnlessLosing(Next(s, run[0]), run[1..]);
      }
    }
  }

  // No event falls between a periodic snapshot and its write, and the debounce
  // task's writes succeed.
  predicate Undisturbed(s: State, run: seq<Step>)
    requires Runs(s, run)
    decreases |run|
  {
    run == [] || (
      && (run[0] == Announce ==> s.periodic == Sleeping)
      && run[0] != DebounceWrite(false)
      && Undisturbed(Next(s, run[0]), run[1..]))
  }

  predicate PeriodicIsFresh(s: State) {
    s.periodic.Writing? ==> s.periodic.snapshot >= s.announced
  }

  lemma {:induction false} UndisturbedRunKeeps(s: State, run: seq<Step>)
    requires Sane(s) && Covered(s) && PeriodicIsFresh(s)
    requires Runs(s, run) && Undisturbed(s, run)
    ensures AlwaysCovered(s, run) && Covered(After(s, run))
    decreases |run|
  {
    if run != [] {
      StepLosesOrKeeps(s, run[0]);
      UndisturbedRunKeeps(Next(s, run[0]), run[1..]);
    }
  }

  // From the start, whatever happens in between.
  lemma StartedRunKeeps(version: nat, run: seq<Step>)
    requires Runs(Start(version), run) && Undisturbed(Start(version), run)
    ensures AlwaysCovered(Start(version), run) && Covered(After(Start(version), run))
  {
    UndisturbedRunKeeps(Start(version), run);
  }

  // ---------------------------------------------------------------------
  // Losing a change
  // ---------------------------------------------------------------------

  lemma Prepend(s: State, step: Step, run: seq<Step>) returns (all: seq<Step>)
    requires Enabled(s, step) && Runs(Next(s, step), run)
    ensures Runs(s, all) && After(s, all) == After(Next(s, step), run)
  {
    all := [step] + run;
    assert all[1..] == run;
  }

  // A periodic write that takes longer than the watcher and the debounce task
  // leaves the file old with nothing pending: snapshot, change, the watcher's
  // save, the debounce task's save, and then the write.
  lemma SlowPeriodicWriteLoses() returns (run: seq<Step>)
    ensures Runs(Start(0), run)
    ensures After(Start(0), run) == State(1, 1, 0, 0, false, Waiting, Sleeping, Sleeping)
    ensures !Covered(After(Start(0), run))
  {
    var seen := State(1, 1, 0, 1, false, Waiting, Sleeping, Writing(0));
    run := WatcherThenDebounce(seen);
    run := Prepend(Start(0).(periodic := Writing(0)), Announce, run);
    run := Prepend(Start(0), PeriodicSnapshot, run);
  }

  lemma WatcherThenDebounce(s: State) returns (run: seq<Step>)
    requires s.unread == 1 && s.watcher == Waiting && s.debounce == Sleeping && s.periodic.Writing?
    ensures Runs(s, run)
    ensures After(s, run) == s.(file := s.periodic.snapshot, unread := 0, dirty := false, periodic := Sleeping)
  {
    var saved := s.(file := s.version, unread := 0, dirty := true);
    run := DebounceThenPeriodic(saved);
    run := Prepend(saved.(dirty := s.dirty, watcher := Marking), WatcherMark, run);
    run := Prepend(s.(unread := 0, watcher := Saving(s.version)), WatcherWrite(true), run);
    run := Prepend(s.(unread := 0, watcher := Received), WatcherSnapshot, run);
    run := Prepend(s, Receive, run);
  }

  lemma DebounceThenPeriodic(s: State) returns (run: seq<Step>)
    requires s.dirty && s.debounce == Sleeping && s.periodic.Writing?
    ensures Runs(s, run)
    ensures After(s, run) == s.(file := s.periodic.snapshot, dirty := false, periodic := Sleeping)
  {
    var woken := s.(dirty := false, debounce := Woken);
    run := Prepend(s.(dirty := false, file := s.version), PeriodicWrite(true), []);
    run := Prepend(woken.(debounce := Writing(s.version)), DebounceWrite(true), run);
    run := Prepend(woken, DebounceSnapshot, run);
    run := Prepend(s, DebounceTick, run);
  }

  // The next periodic save repairs it, and picks up silent changes too.
  lemma PeriodicSaveRepairs(s: State)
    requires s.periodic == Sleeping
    ensures var run := [PeriodicSnapshot, PeriodicWrite(true)];
            Runs(s, run) && After(s, run) == s.(file := s.version)
  {
    var run := Prepend(Next(s, PeriodicSnapshot), PeriodicWrite(true), []);
    run := Prepend(s, PeriodicSnapshot, run);
  }

  // ---------------------------------------------------------------------
  // One save of each task
  // ---------------------------------------------------------------------

  lemma StepThen(s: State, step: Step, run: seq<Step>, all: seq<Step>, next: State, end: State)
    requires Enabled(s, step) && next == Next(s, step)
    requires Runs(next, run) && After(next, run) == end && all == [step] + run
    ensures Runs(s, all) && After(s, all) == end
  {
    assert all[1..] == run;
  }

  // The watcher writes the layout of its snapshot, not a later one, and raises the
  // flag even if the write fails.
  lemma WatcherWrites(s: State, ok: bool)
    requires s.watcher.Saving?
    ensures var run := [Silent, WatcherWrite(ok), WatcherMark];
            && Runs(s, run)
            && After(s, run) == s.(version := s.version + 1, file := if ok then s.watcher.snapshot else s.file,
                                   dirty := true, watcher := Waiting)
  {
    var s1 := s.(version := s.version + 1);
    var s2 := s1.(file := if ok then s.watcher.snapshot else s.file, watcher := Marking);
    var end := s2.(dirty := true, watcher := Waiting);
    StepThen(s2, WatcherMark, [], [WatcherMark], end, end);
    StepThen(s1, WatcherWrite(ok), [WatcherMark], [WatcherWrite(ok), WatcherMark], s2, end);
    StepThen(s, Silent, [WatcherWrite(ok), WatcherMark], [Silent, WatcherWrite(ok), WatcherMark], s1, end);
  }

  // An event makes it take a snapshot of the layout as it then is.
  lemma WatcherSaves(s: State, ok: bool)
    requires s.watcher == Waiting && s.unread > 0
    ensures var run := [Receive, WatcherSnapshot, Silent, WatcherWrite(ok), WatcherMark];
            && Runs(s, run)
            && After(s, run) == s.(version := s.version + 1, file := if ok then s.version else s.file,
                                   unread := s.unread - 1, dirty := true)
  {
    var s1 := s.(unread := s.unread - 1, watcher := Received);
    var s2 := s1.(watcher := Saving(s.version));
    var run := [Silent, WatcherWrite(ok), WatcherMark];
    WatcherWrites(s2, ok);
    var end := After(s2, run);
    StepThen(s1, WatcherSnapshot, run, [WatcherSnapshot] + run, s2, end);
    StepThen(s, Receive, [WatcherSnapshot] + run, [Receive, WatcherSnapshot] + run, s1, end);
    assert [Receive, WatcherSnapshot] + run == [Receive, WatcherSnapshot, Silent, WatcherWrite(ok), WatcherMark];
  }

  // One that has missed events only raises the flag.
  lemma LagOnlyMarks(s: State, lost: nat)
    requires s.watcher == Waiting && lost <= s.unread
    ensures var run := [Lag(lost), WatcherMark];
            Runs(s, run) && After(s, run) == s.(unread := s.unread - lost, dirty := true)
  {
    var s1 := s.(unread := s.unread - lost, watcher := Marking);
    var end := s1.(dirty := true, watcher := Waiting);
    StepThen(s1, WatcherMark, [], [WatcherMark], end, end);
    StepThen(s, Lag(lost), [WatcherMark], [Lag(lost), WatcherMark], s1, end);
  }

  // The debounce task writes the layout of its snapshot once if the flag is up, and
  // takes the flag down even if the write fails.
  lemma DebounceSaves(s: State, ok: bool)
    requires s.debounce == Sleeping
    ensures !s.dirty ==> Next(s, DebounceTick) == s
    ensures s.dirty ==>
              var run := [DebounceTick, DebounceSnapshot, Silent, DebounceWrite(ok)];
              && Runs(s, run)
              && After(s, run) == s.(version := s.version + 1, file := if ok then s.version else s.file, dirty := false)
  {
    if s.dirty {
      var s1 := s.(dirty := false, debounce := Woken);
      var s2 := s1.(debounce := Writing(s.version));
      var s3 := s2.(version := s.version + 1);
      var end := s3.(file := if ok then s.version else s.file, debounce := Sleeping);
      StepThen(s3, DebounceWrite(ok), [], [DebounceWrite(ok)], end, end);
      StepThen(s2, Silent, [DebounceWrite(ok)], [Silent, DebounceWrite(ok)], s3, end);
      var run := [DebounceSnapshot, Silent, DebounceWrite(ok)];
      StepThen(s1, DebounceSnapshot, [Silent, DebounceWrite(ok)], run, s2, end);
      StepThen(s, DebounceTick, run, [DebounceTick, DebounceSnapshot, Silent, DebounceWrite(ok)], s1, end);
    }
  }

  // A change with an event reaches the file by way of the watcher alone.
  lemma AnnouncedChangeIsWritten(s: State)
    requires s.watcher == Waiting && s.unread == 0
    ensures var run := [Announce, Receive, WatcherSnapshot, WatcherWrite(true)];
            && Runs(s, run)
            && After(s, run) == s.(version := s.version + 1, announced := s.version + 1, file := s.version + 1,
                                   watcher := Marking)
  {
    var s1 := s.(version := s.version + 1, announced := s.version + 1, unread := 1);
    var s2 := s1.(unread := 0, watcher := Received);
    var s3 := s2.(watcher := Saving(s.version + 1));
    var end := s3.(file := s.version + 1, watcher := Marking);
    StepThen(s3, WatcherWrite(true), [], [WatcherWrite(true)], end, end);
    StepThen(s2, WatcherSnapshot, [WatcherWrite(true)], [WatcherSnapshot, WatcherWrite(true)], s3, end);
    var run := [Receive, WatcherSnapshot, WatcherWrite(true)];
    StepThen(s1, Receive, [WatcherSnapshot, WatcherWrite(true)], run, s2, end);
    StepThen(s, Announce, run, [Announce, Receive, WatcherSnapshot, WatcherWrite(true)], s1, end);
  }

  // A task does one thing at a time.
  lemma OneSaveAtATime(s: State, lost: nat)
    ensures s.watcher != Waiting ==> !Enabled(s, Receive) && !Enabled(s, Lag(lost))
    ensures s.debounce != Sleeping ==> !Enabled(s, DebounceTick)
    ensures s.periodic.Writing? ==> !Enabled(s, PeriodicSnapshot)
    ensures s.unread < lost ==> !Enabled(s, Lag(lost))
    ensures s.unread == 0 ==> !Enabled(s, Receive)
  {
  }

  // ---------------------------------------------------------------------
  // Settling
  // ---------------------------------------------------------------------

  predicate Quiet(s: State) {
    !Flagged(s) && s.debounce == Sleeping
  }

  // What the watcher and the debounce task do when nobody changes the layout.
  predicate Works(s: State, step: Step) {
    && Enabled(s, step)
    && match step
       case Receive => true
       case Lag(lost) => lost > 0
       case WatcherSnapshot => true
       case WatcherWrite(_) => true
       case WatcherMark => true
       case DebounceTick => s.dirty
       case DebounceSnapshot => true
       case DebounceWrite(ok) => ok
       case _ => false
  }

  // That is, every step of the two that changes anything, but for a failing
  // debounce write and a lag of no events.
  lemma WorkIsProgress(s: State, step: Step)
    ensures Works(s, step) <==>
            && Enabled(s, step) && Next(s, step) != s
            && !(step.Announce? || step.Silent? || step.PeriodicSnapshot? || step.PeriodicWrite?)
            && step != DebounceWrite(false) && step != Lag(0)
  {
  }

  // How many such steps are left, at most.
  function Work(s: State): nat {
    7 * s.unread
    + (match s.watcher case Waiting => 0 case Received => 6 case Saving(_) => 5 case Marking => 4)
    + (if s.dirty then 3 else 0)
    + (match s.debounce case Sleeping => 0 case Woken => 2 case Writing(_) => 1)
  }

  lemma WorkRunsOut(s: State, step: Step)
    requires Works(s, step)
    ensures Work(Next(s, step)) < Work(s)
    ensures Next(s, step).announced == s.announced && Next(s, step).version == s.version
  {
  }

  lemma WorkGoesOn(s: State) returns (step: Step)
    requires !Quiet(s)
    ensures Works(s, step)
  {
    step := if s.watcher == Received then WatcherSnapshot
      else if s.watcher.Saving? then WatcherWrite(true)
      else if s.watcher == Marking then WatcherMark
      else if s.unread > 0 then Receive
      else if s.debounce == Woken then DebounceSnapshot
      else if s.debounce.Writing? then DebounceWrite(true)
      else DebounceTick;
  }

  predicate WorkingRun(s: State, run: seq<Step>)
    requires Runs(s, run)
    decreases |run|
  {
    run == [] || (Works(s, run[0]) && WorkingRun(Next(s, run[0]), run[1..]))
  }

  // After the last event, in whatever order the tasks go on: they stop after a
  // bounded number of steps, they stop only when all is quiet, and then the file
  // holds every announced change (and the layout itself, if there was no silent
  // change since).
  lemma {:induction false} Settles(s: State, run: seq<Step>)
    requires Sane(s) && Covered(s) && Runs(s, run) && WorkingRun(s, run)
    ensures |run| <= Work(s)
    ensures Quiet(After(s, run)) <==> forall step :: !Works(After(s, run), step)
    ensures Quiet(After(s, run)) ==> s.announced <= After(s, run).file <= s.version
    ensures Quiet(After(s, run)) && s.announced == s.version ==> After(s, run).file == s.version
    decreases |run|
  {
    if run == [] {
      if !Quiet(s) {
        var step := WorkGoesOn(s);
      }
    } else {
      WorkRunsOut(s, run[0]);
      StepLosesOrKeeps(s, run[0]);
      Settles(Next(s, run[0]), run[1..]);
    }
  }

  // One debounce cycle, once the watcher has seen the last event.
  lemma OneDebounceCycle(s: State)
    requires Sane(s) && s.dirty && s.debounce == Sleeping && s.unread == 0 && s.watcher == Waiting
    ensures var run := [DebounceTick, DebounceSnapshot, DebounceWrite(true)];
            Runs(s, run) && Quiet(After(s, run)) && After(s, run).file == s.version
  {
    var woken := Next(s, DebounceTick);
    var run := Prepend(Next(woken, DebounceSnapshot), DebounceWrite(true), []);
    run := Prepend(woken, DebounceSnapshot, run);
    run := Prepend(s, DebounceTick, run);
  }
}
