/** The transactional store: goroutines of several processes run functions on the shared configuration,
    each a load, an edit and an atomic replacement of the file, under a mutex inside the process and a
    file lock between processes, beside readers that take no lock. Any step may fail and any process
    may crash at any point. The theorems say that the outcome is that of running the successful
    functions one at a time, in the order their replacements took effect. */
module Store {
  import opened Addresses
  import opened Base
  import opened Mesh
  import opened Routes

  /** A call of the store; `since` is history: how many replacements had taken effect when it began. */
  datatype Call = Call(op: Op, since: nat)

  /** A function that has been run on a loaded configuration, to be saved. */
  datatype Work = Work(call: Call, at: nat, reg: Registry, reply: Reply)

  /** How a call ended; `before` is history: how many replacements had taken effect when it loaded. */
  datatype Report =
    | Ran(call: Call, at: nat, before: nat, outcome: Outcome)
    | Broke(call: Call)

  /** Where a goroutine is. A reader remembers, as history, how many replacements had taken effect when it
      began and when it opened the file. */
  datatype Phase =
    | Idle
    | Waiting(call: Call)
    | Entered(call: Call)
    | Locked(call: Call)
    | Loaded(call: Call, loaded: Registry)
    | Computed(work: Work)
    | Writing(work: Work, temp: nat)
    | Written(work: Work, temp: nat)
    | Releasing(report: Report)
    | Unlocked(report: Report)
    | Returned(report: Report)
    | Opening(from: nat)
    | Reading(from: nat, upTo: nat, seen: Registry)
    | HasRead(from: nat, upTo: nat, seen: Registry)

  datatype Thread = Thread(process: nat, phase: Phase)

  /** The disk holds the configuration file and temporary files, None while only part is written.
      `initial` and `log` are history: the first configuration and the functions that took effect, each
      with the clock it read. */
  datatype Store = Store(
    clock: nat, config: Registry, temps: map<nat, Option<Registry>>, nextTemp: nat,
    fileLock: Option<nat>, mutexes: map<nat, nat>, threads: map<nat, Thread>,
    initial: Registry, log: seq<(Op, nat)>)

  datatype Event =
    | Tick(seconds: nat)
    | Spawn(th: nat, process: nat)
    | Begin(th: nat, op: Op)
    | TakeMutex(th: nat)
    | TakeLock(th: nat)
    | LoadConfig(th: nat)
    | RunFunction(th: nat)
    | CreateTemp(th: nat)
    | FinishTemp(th: nat)
    | Rename(th: nat)
    | Fail(th: nat)
    | ReleaseLock(th: nat)
    | ReleaseMutex(th: nat)
    | BeginRead(th: nat)
    | OpenConfig(th: nat)
    | FinishRead(th: nat)
    | Crash(process: nat)

  // --- steps ---

  function Move(s: Store, th: nat, phase: Phase): Store
    requires th in s.threads
  {
    s.(threads := s.threads[th := s.threads[th].(phase := phase)])
  }

  /** What the function given to the store decides. */
  function AfterFunction(s: Store, call: Call, loaded: Registry): Phase {
    match Apply(call.op, loaded, s.clock)
    case Applied(reg', reply) => Computed(Work(call, s.clock, reg', reply))
    case Refused(e) => Releasing(Ran(call, s.clock, |s.log|, Refused(e)))
  }

  /** An input or output error, wherever the call is. */
  function AfterFailure(phase: Phase): Phase {
    match phase
    case Entered(call) => Unlocked(Broke(call))
    case Locked(call) => Releasing(Broke(call))
    case Computed(w) => Releasing(Broke(w.call))
    case Writing(w, _) => Releasing(Broke(w.call))
    case Written(w, _) => Releasing(Broke(w.call))
    case _ => phase
  }

  function StepRename(s: Store, th: nat): Store
    requires th in s.threads && s.threads[th].phase.Written?
  {
    var w, temp := s.threads[th].phase.work, s.threads[th].phase.temp;
    if temp in s.temps && s.temps[temp].Some? then
      Move(s, th, Releasing(Ran(w.call, w.at, |s.log|, Applied(w.reg, w.reply))))
        .(config := s.temps[temp].value, temps := s.temps - {temp}, log := s.log + [(w.call.op, w.at)])
    else s
  }

  /** A crash ends every goroutine of the process; the system drops its mutex and its file lock, and
      its temporary files stay behind. */
  function StepCrash(s: Store, p: nat): Store {
    var gone := set th | th in s.threads && s.threads[th].process == p;
    s.(threads := s.threads - gone,
       mutexes := s.mutexes - {p},
       fileLock := if s.fileLock.Some? && s.fileLock.value in gone then None else s.fileLock)
  }

  function Step(s: Store, e: Event): Store {
    match e
    case Tick(d) => s.(clock := s.clock + d)
    case Spawn(th, p) => if th in s.threads then s else s.(threads := s.threads[th := Thread(p, Idle)])
    case Crash(p) => StepCrash(s, p)
    case _ => if e.th in s.threads then StepThread(s, e, e.th, s.threads[e.th].process, s.threads[e.th].phase) else s
  }

  function StepThread(s: Store, e: Event, th: nat, p: nat, phase: Phase): Store
    requires th in s.threads && s.threads[th] == Thread(p, phase)
  {
    if e.Begin? && phase.Idle? then Move(s, th, Waiting(Call(e.op, |s.log|)))
    else if e.TakeMutex? && phase.Waiting? && p !in s.mutexes then
      Move(s, th, Entered(phase.call)).(mutexes := s.mutexes[p := th])
    else if e.TakeLock? && phase.Entered? && s.fileLock.None? then
      Move(s, th, Locked(phase.call)).(fileLock := Some(th))
    else if e.LoadConfig? && phase.Locked? then Move(s, th, Loaded(phase.call, s.config))
    else if e.RunFunction? && phase.Loaded? && DrawsNewID(phase.call.op, phase.loaded) then
      Move(s, th, AfterFunction(s, phase.call, phase.loaded))
    else if e.CreateTemp? && phase.Computed? then
      Move(s, th, Writing(phase.work, s.nextTemp)).(temps := s.temps[s.nextTemp := None], nextTemp := s.nextTemp + 1)
    else if e.FinishTemp? && phase.Writing? then
      Move(s, th, Written(phase.work, phase.temp)).(temps := s.temps[phase.temp := Some(phase.work.reg)])
    else if e.Rename? && phase.Written? then StepRename(s, th)
    else if e.Fail? then Move(s, th, AfterFailure(phase))
    else if e.ReleaseLock? && phase.Releasing? then Move(s, th, Unlocked(phase.report)).(fileLock := None)
    else if e.ReleaseMutex? && phase.Unlocked? then
      Move(s, th, Returned(phase.report)).(mutexes := s.mutexes - {p})
    else if e.BeginRead? && phase.Idle? then Move(s, th, Opening(|s.log|))
    else if e.OpenConfig? && phase.Opening? then Move(s, th, Reading(phase.from, |s.log|, s.config))
    else if e.FinishRead? && phase.Reading? then Move(s, th, HasRead(phase.from, phase.upTo, phase.seen))
    else s
  }

  function Run(s: Store, es: seq<Event>): Store {
    if es == [] then s else Step(Run(s, es[..|es| - 1]), es[|es| - 1])
  }

  // --- invariant ---

  predicate HoldsLock(ph: Phase) {
    ph.Locked? || ph.Loaded? || ph.Computed? || ph.Writing? || ph.Written? || ph.Releasing?
  }

  predicate HoldsMutex(ph: Phase) {
    ph.Entered? || HoldsLock(ph) || ph.Unlocked?
  }

  /** The configuration after the first `k` functions that took effect. */
  function Prefix(s: Store, k: nat): Registry
    requires k <= |s.log|
  {
    Replay(s.initial, s.log[..k])
  }

  predicate CallOk(s: Store, c: Call) { c.since <= |s.log| }

  /** The last clock reading that took effect. */
  predicate NotBeforeLast(s: Store, at: nat) {
    s.log != [] ==> s.log[|s.log| - 1].1 <= at
  }

  predicate WorkOk(s: Store, w: Work) {
    && CallOk(s, w.call)
    && Apply(w.call.op, s.config, w.at) == Applied(w.reg, w.reply)
    && DrawsNewID(w.call.op, s.config)
    && NotBeforeLast(s, w.at) && w.at <= s.clock
  }

  /** A finished call reports what its function gives on exactly the prefix it loaded; a successful one
      is in the log at that very place, after everything that had taken effect when it began. */
  predicate ReportOk(s: Store, r: Report) {
    match r
    case Broke(c) => true
    case Ran(c, at, before, out) =>
      && c.since <= before <= |s.log|
      && Apply(c.op, Prefix(s, before), at) == out
      && (out.Applied? ==> before < |s.log| && s.log[before] == (c.op, at))
  }

  /** What a reader gets is a prefix, and no shorter than what had taken effect when it began. */
  predicate ReadOk(s: Store, from: nat, upTo: nat, seen: Registry) {
    from <= upTo <= |s.log| && seen == Prefix(s, upTo)
  }

  predicate PhaseOk(s: Store, ph: Phase) {
    match ph
    case Idle => true
    case Waiting(c) => CallOk(s, c)
    case Entered(c) => CallOk(s, c)
    case Locked(c) => CallOk(s, c)
    case Loaded(c, reg) => CallOk(s, c) && reg == s.config
    case Computed(w) => WorkOk(s, w)
    case Writing(w, temp) => WorkOk(s, w)
    case Written(w, temp) => WorkOk(s, w) && temp in s.temps && s.temps[temp] == Some(w.reg)
    case Releasing(r) => ReportOk(s, r)
    case Unlocked(r) => ReportOk(s, r)
    case Returned(r) => ReportOk(s, r)
    case Opening(from) => from <= |s.log|
    case Reading(from, upTo, seen) => ReadOk(s, from, upTo, seen)
    case HasRead(from, upTo, seen) => ReadOk(s, from, upTo, seen)
  }

  predicate ThreadOk(s: Store, th: nat, t: Thread) {
    && PhaseOk(s, t.phase)
    && (HoldsLock(t.phase) <==> s.fileLock == Some(th))
    && (HoldsMutex(t.phase) <==> t.process in s.mutexes && s.mutexes[t.process] == th)
  }

  ghost predicate LogOk(s: Store) {
    && s.config == Replay(s.initial, s.log)
    && AllDrawNewIDs(s.initial, s.log)
    && (forall i {:trigger s.log[i]} :: 0 <= i < |s.log| ==> s.log[i].1 <= s.clock)
    && (forall i, j :: 0 <= i < j < |s.log| ==> s.log[i].1 <= s.log[j].1)
  }

  ghost predicate Inv(s: Store) {
    && LogOk(s)
    && (s.fileLock.Some? ==> s.fileLock.value in s.threads)
    && (forall p :: p in s.mutexes ==> s.mutexes[p] in s.threads && s.threads[s.mutexes[p]].process == p)
    && forall th :: th in s.threads ==> ThreadOk(s, th, s.threads[th])
  }

  /** A configuration on disk, and nobody using it. */
  predicate Init(s: Store) {
    s.config == s.initial && s.log == [] && s.fileLock == None && s.mutexes == map[] && s.threads == map[]
  }

  lemma InitInv(s: Store)
    requires Init(s)
    ensures Inv(s)
  {
  }

  // --- preservation ---

  /** What a thread knows survives a later clock and other locks, as long as no replacement happens
      and its own finished temporary file is left alone. */
  lemma SameDisk(s: Store, s': Store, ph: Phase)
    requires PhaseOk(s, ph)
    requires s'.config == s.config && s'.log == s.log && s'.initial == s.initial && s'.clock >= s.clock
    requires ph.Written? && ph.temp in s.temps ==> ph.temp in s'.temps && s'.temps[ph.temp] == s.temps[ph.temp]
    ensures PhaseOk(s', ph)
  {
    hide Apply, Replay, DrawsNewID;
  }

  /** What a thread without the lock knows survives a replacement. */
  lemma LongerLog(s: Store, s': Store, ph: Phase, entry: (Op, nat))
    requires PhaseOk(s, ph) && !HoldsLock(ph)
    requires s'.log == s.log + [entry] && s'.initial == s.initial
    ensures PhaseOk(s', ph)
  {
    hide Apply, Replay, DrawsNewID;
    assert forall k: nat :: k <= |s.log| ==> s'.log[..k] == s.log[..k];
  }

  /** How one thread's step may leave what the threads share. */
  ghost predicate Shares(s: Store, s': Store, th: nat, p: nat) {
    && s'.initial == s.initial && s'.clock == s.clock
    && ((s'.config == s.config && s'.log == s.log) ||
        (s.fileLock == Some(th) && s'.log != [] && s'.log[..|s'.log| - 1] == s.log))
    && (s'.temps == s.temps || s.fileLock == Some(th))
    && (s'.fileLock == s.fileLock || (s.fileLock == None && s'.fileLock == Some(th)) ||
        (s.fileLock == Some(th) && s'.fileLock == None))
    && (s'.mutexes == s.mutexes || (p !in s.mutexes && s'.mutexes == s.mutexes[p := th]) ||
        (p in s.mutexes && s.mutexes[p] == th && s'.mutexes == s.mutexes - {p}))
  }

  lemma OtherKept(s: Store, s': Store, th: nat, p: nat, x: nat)
    requires Inv(s) && Shares(s, s', th, p) && x in s.threads && x != th
    ensures ThreadOk(s', x, s.threads[x])
  {
    hide PhaseOk, LogOk;
    var ph := s.threads[x].phase;
    assert ThreadOk(s, x, s.threads[x]);
    if s'.log == s.log && s'.config == s.config {
      SameDisk(s, s', ph);
    } else {
      assert s'.log == s.log + [s'.log[|s'.log| - 1]];
      LongerLog(s, s', ph, s'.log[|s'.log| - 1]);
    }
  }

  /** A step of one thread: what remains is that its own new phase is right. */
  lemma ThreadInv(s: Store, s': Store, th: nat)
    requires Inv(s) && th in s.threads && th in s'.threads
    requires s'.threads == s.threads[th := s'.threads[th]] && s'.threads[th].process == s.threads[th].process
    requires Shares(s, s', th, s.threads[th].process)
    requires LogOk(s') && ThreadOk(s', th, s'.threads[th])
    ensures Inv(s')
  {
    hide LogOk, ThreadOk;
    forall x | x in s'.threads ensures ThreadOk(s', x, s'.threads[x]) {
      if x != th {
        OtherKept(s, s', th, s.threads[th].process, x);
      }
    }
    hide Shares;
    assert s'.fileLock.Some? ==> s'.fileLock.value in s'.threads by {
      assert Shares(s, s', th, s.threads[th].process);
    }
  }

  /** The steps that replace nothing. */
  lemma QuietStep(s: Store, e: Event, th: nat)
    requires Inv(s) && th in s.threads && !e.Rename? && !e.RunFunction?
    ensures Inv(StepThread(s, e, th, s.threads[th].process, s.threads[th].phase))
  {
    var s' := StepThread(s, e, th, s.threads[th].process, s.threads[th].phase);
    if s' != s {
      QuietShares(s, e, th);
      QuietLocks(s, e, th);
      QuietPhase(s, e, th);
      hide PhaseOk, Shares, StepThread, LogOk, HoldsLock, HoldsMutex;
      ThreadInv(s, s', th);
    }
  }

  lemma QuietShares(s: Store, e: Event, th: nat)
    requires Inv(s) && th in s.threads && !e.Rename? && !e.RunFunction?
    ensures var t := s.threads[th]; var s' := StepThread(s, e, th, t.process, t.phase);
            s' != s ==>
              && th in s'.threads && s'.threads == s.threads[th := s'.threads[th]] &&
                  s'.threads[th].process == t.process
              && Shares(s, s', th, t.process) && LogOk(s')
  {
    hide LogOk, Apply, Replay, DrawsNewID, PhaseOk, StepRename, AfterFunction, AfterFailure;
    var t := s.threads[th];
    assert ThreadOk(s, th, t);
    LogStays(s, StepThread(s, e, th, t.process, t.phase));
    hide Inv;
  }

  lemma QuietLocks(s: Store, e: Event, th: nat)
    requires Inv(s) && th in s.threads && !e.Rename? && !e.RunFunction?
    ensures var t := s.threads[th]; var s' := StepThread(s, e, th, t.process, t.phase);
            && th in s'.threads && s'.threads[th].process == t.process
            && (HoldsLock(s'.threads[th].phase) <==> s'.fileLock == Some(th))
            && (HoldsMutex(s'.threads[th].phase) <==> t.process in s'.mutexes && s'.mutexes[t.process] == th)
  {
    hide LogOk, Apply, Replay, DrawsNewID, PhaseOk, StepRename, AfterFunction;
    assert ThreadOk(s, th, s.threads[th]);
    hide Inv;
  }

  lemma LogStays(s: Store, s': Store)
    requires LogOk(s) && s'.config == s.config && s'.log == s.log && s'.initial == s.initial && s'.clock >= s.clock
    ensures LogOk(s')
  {
    hide Replay, AllDrawNewIDs;
  }

  lemma WholeLog(s: Store)
    requires LogOk(s)
    ensures s.config == Prefix(s, |s.log|)
  {
    assert s.log[..|s.log|] == s.log;
  }

  lemma QuietPhase(s: Store, e: Event, th: nat)
    requires Inv(s) && th in s.threads && !e.Rename? && !e.RunFunction?
    ensures var s' := StepThread(s, e, th, s.threads[th].process, s.threads[th].phase);
            th in s'.threads && PhaseOk(s', s'.threads[th].phase)
  {
    WholeLog(s);
    hide StepThread, Prefix, LogOk, PhaseOk;
    assert ThreadOk(s, th, s.threads[th]);
    if e.CreateTemp? || e.FinishTemp? {
      SavingPhase(s, e, th);
    } else if e.Fail? {
      FailedPhase(s, e, th);
    } else {
      PassingPhase(s, e, th);
    }
  }

  /** Beginning, waiting, locking, loading, reading and releasing. */
  lemma PassingPhase(s: Store, e: Event, th: nat)
    requires th in s.threads && PhaseOk(s, s.threads[th].phase) && s.config == Prefix(s, |s.log|)
    requires !e.Rename? && !e.RunFunction? && !e.CreateTemp? && !e.FinishTemp? && !e.Fail?
    ensures var s' := StepThread(s, e, th, s.threads[th].process, s.threads[th].phase);
            th in s'.threads && PhaseOk(s', s'.threads[th].phase)
  {
    hide Apply, Replay, DrawsNewID, AfterFunction, AfterFailure, StepRename;
  }

  lemma SavingPhase(s: Store, e: Event, th: nat)
    requires th in s.threads && PhaseOk(s, s.threads[th].phase) && (e.CreateTemp? || e.FinishTemp?)
    ensures var s' := StepThread(s, e, th, s.threads[th].process, s.threads[th].phase);
            th in s'.threads && PhaseOk(s', s'.threads[th].phase)
  {
    hide Apply, Replay, DrawsNewID, AfterFunction, AfterFailure, StepRename;
  }

  lemma FailedPhase(s: Store, e: Event, th: nat)
    requires th in s.threads && PhaseOk(s, s.threads[th].phase) && e.Fail?
    ensures var s' := StepThread(s, e, th, s.threads[th].process, s.threads[th].phase);
            th in s'.threads && PhaseOk(s', s'.threads[th].phase)
  {
    hide Apply, Replay, DrawsNewID, AfterFunction, StepRename;
    var ph := s.threads[th].phase;
    SameDisk(s, Move(s, th, AfterFailure(ph)), ph);
  }

  /** Running the function: it sees the configuration on disk, which is the fold of the whole log. */
  lemma RunStep(s: Store, th: nat)
    requires Inv(s) && th in s.threads
    ensures Inv(StepThread(s, RunFunction(th), th, s.threads[th].process, s.threads[th].phase))
  {
    var t := s.threads[th];
    assert ThreadOk(s, th, t);
    if t.phase.Loaded? && DrawsNewID(t.phase.call.op, t.phase.loaded) {
      WholeLog(s);
      var s' := Move(s, th, AfterFunction(s, t.phase.call, t.phase.loaded));
      assert s.log != [] ==> s.log[|s.log| - 1].1 <= s.clock;
      LogStays(s, s');
      hide LogOk, Apply, Replay, DrawsNewID;
      assert PhaseOk(s', s'.threads[th].phase);
      ThreadInv(s, s', th);
    }
  }

  /** The replacement: the configuration on disk becomes what the function makes of the one it replaces,
      at the clock it read; the log grows by that function; the other goroutines are left alone. */
  lemma RenameStep(s: Store, th: nat)
    requires Inv(s) && th in s.threads
    ensures var s' := StepThread(s, Rename(th), th, s.threads[th].process, s.threads[th].phase);
            && Inv(s')
            && (s.threads[th].phase.Written? ==>
                  var w := s.threads[th].phase.work;
                  && Apply(w.call.op, s.config, w.at) == Applied(s'.config, w.reply)
                  && s'.log == s.log + [(w.call.op, w.at)]
                  && th in s'.threads && s'.threads == s.threads[th := s'.threads[th]]
                  && s'.threads[th].phase == Releasing(Ran(w.call, w.at, |s.log|, Applied(s'.config, w.reply))))
  {
    var t := s.threads[th];
    assert ThreadOk(s, th, t);
    if t.phase.Written? {
      var w, s' := t.phase.work, StepRename(s, th);
      RenameLog(s, w, s');
      assert s'.log[..|s.log|] == s.log;
      assert PhaseOk(s', s'.threads[th].phase) by {
        WholeLog(s);
        hide Apply, Replay, DrawsNewID, LogOk;
      }
      hide LogOk, PhaseOk, Apply, Replay;
      ThreadInv(s, s', th);
    }
  }

  lemma RenameLog(s: Store, w: Work, s': Store)
    requires LogOk(s) && WorkOk(s, w)
    requires s'.config == w.reg && s'.log == s.log + [(w.call.op, w.at)] && s'.initial == s.initial &&
        s'.clock == s.clock
    ensures LogOk(s')
  {
    hide Apply, DrawsNewID;
    assert s'.log[..|s.log|] == s.log;
    assert After(w.call.op, s.config, w.at) == w.reg;
  }

  /** A crash takes the goroutines of its process and nothing else: what is stored and logged stays, and
      the goroutines of other processes go on where they are, with the locks they hold. */
  lemma CrashStep(s: Store, p: nat)
    requires Inv(s)
    ensures var s' := StepCrash(s, p);
            && Inv(s')
            && s'.config == s.config && s'.log == s.log && s'.temps == s.temps
            && p !in s'.mutexes
            && (forall th :: th in s'.threads <==> th in s.threads && s.threads[th].process != p)
            && (forall th :: th in s'.threads ==>
                  s'.threads[th] == s.threads[th] && (s'.fileLock == Some(th) <==> s.fileLock == Some(th)))
            && (forall q :: q != p ==> (q in s'.mutexes <==> q in s.mutexes))
            && (forall q :: q in s'.mutexes ==> s'.mutexes[q] == s.mutexes[q])
            && (s.fileLock.Some? && s.threads[s.fileLock.value].process == p ==> s'.fileLock.None?)
  {
    hide LogOk, PhaseOk;
    var s' := StepCrash(s, p);
    LogStays(s, s');
    forall th | th in s'.threads ensures ThreadOk(s', th, s'.threads[th]) {
      assert ThreadOk(s, th, s.threads[th]);
      SameDisk(s, s', s.threads[th].phase);
    }
  }

  lemma TickStep(s: Store, d: nat)
    requires Inv(s)
    ensures Inv(s.(clock := s.clock + d))
  {
    hide LogOk, PhaseOk;
    var s' := s.(clock := s.clock + d);
    LogStays(s, s');
    forall th | th in s'.threads ensures ThreadOk(s', th, s'.threads[th]) {
      assert ThreadOk(s, th, s.threads[th]);
      SameDisk(s, s', s.threads[th].phase);
    }
  }

  lemma SpawnStep(s: Store, th: nat, p: nat)
    requires Inv(s) && th !in s.threads
    ensures Inv(s.(threads := s.threads[th := Thread(p, Idle)]))
  {
    hide LogOk, PhaseOk;
    var s' := s.(threads := s.threads[th := Thread(p, Idle)]);
    LogStays(s, s');
    NoPhase(s');
    forall x | x in s.threads ensures ThreadOk(s', x, s.threads[x]) {
      assert ThreadOk(s, x, s.threads[x]);
      SameDisk(s, s', s.threads[x].phase);
    }
  }

  lemma NoPhase(s: Store)
    ensures PhaseOk(s, Idle)
  {
  }

  lemma StepInv(s: Store, e: Event)
    requires Inv(s)
    ensures Inv(Step(s, e))
  {
    hide Inv, StepThread, StepCrash;
    match e
    case Tick(d) => TickStep(s, d);
    case Spawn(th, p) => if th !in s.threads { SpawnStep(s, th, p); }
    case Crash(p) => CrashStep(s, p);
    case Rename(th) => if th in s.threads { RenameStep(s, th); }
    case RunFunction(th) => if th in s.threads { RunStep(s, th); }
    case _ => if e.th in s.threads { QuietStep(s, e, e.th); }
  }

  lemma {:induction false} RunInv(s: Store, es: seq<Event>)
    requires Inv(s)
    ensures Inv(Run(s, es))
  {
    hide Inv, Step;
    if es != [] {
      RunInv(s, es[..|es| - 1]);
      StepInv(Run(s, es[..|es| - 1]), es[|es| - 1]);
    }
  }

  // --- the theorems ---

  /** Serialisability. However the steps of any goroutines and processes interleave, fail and crash,
      the stored configuration is the first one with the logged functions applied one at a time, in
      the order their replacements took effect and with clock readings that never go back. Every
      successful function was given exactly the prefix before it, and its caller the answer it computed
      there; every refusal was decided on some prefix; every reader gets some prefix. */
  lemma Serialisable(s0: Store, es: seq<Event>)
    requires Init(s0)
    ensures var s := Run(s0, es);
            && s.initial == s0.config
            && s.config == Replay(s0.config, s.log)
            && (forall i, j :: 0 <= i < j < |s.log| ==> s.log[i].1 <= s.log[j].1)
            && (forall th :: th in s.threads && s.threads[th].phase.Returned? ==>
                ReportOk(s, s.threads[th].phase.report))
            && (forall th :: th in s.threads && s.threads[th].phase.HasRead? ==>
                  ReadOk(s, s.threads[th].phase.from, s.threads[th].phase.upTo, s.threads[th].phase.seen))
  {
    InitInv(s0);
    RunInv(s0, es);
    InitialKept(s0, es);
    var s := Run(s0, es);
    hide Replay, Apply, Step, ReportOk, ReadOk;
    forall th | th in s.threads ensures PhaseOk(s, s.threads[th].phase) {
      assert ThreadOk(s, th, s.threads[th]);
    }
  }

  lemma {:induction false} InitialKept(s: Store, es: seq<Event>)
    ensures Run(s, es).initial == s.initial
  {
    hide Apply, AfterFunction, AfterFailure, DrawsNewID;
    if es != [] {
      InitialKept(s, es[..|es| - 1]);
    }
  }

  /** Only a replacement changes the stored configuration, and then it adds exactly one function to the
      log: failed, refused and crashed attempts leave no trace. */
  lemma OnlyRenameCommits(s: Store, e: Event)
    ensures !e.Rename? ==> Step(s, e).config == s.config && Step(s, e).log == s.log
    ensures Step(s, e).log == s.log ==> Step(s, e).config == s.config
    ensures s.log <= Step(s, e).log && |Step(s, e).log| <= |s.log| + 1
  {
    hide Apply;
  }

  lemma {:induction false} LogGrows(s: Store, es: seq<Event>)
    ensures s.log <= Run(s, es).log
  {
    hide Step;
    if es != [] {
      LogGrows(s, es[..|es| - 1]);
      OnlyRenameCommits(Run(s, es[..|es| - 1]), es[|es| - 1]);
    }
  }

  /** Mutual exclusion: at most one goroutine anywhere is between taking and releasing the file lock, and
      at most one of each process between taking and releasing its mutex. */
  lemma Exclusive(s: Store, a: nat, b: nat)
    requires Inv(s) && a in s.threads && b in s.threads
    ensures HoldsLock(s.threads[a].phase) && HoldsLock(s.threads[b].phase) ==> a == b
    ensures s.threads[a].process == s.threads[b].process ==>
            HoldsMutex(s.threads[a].phase) && HoldsMutex(s.threads[b].phase) ==> a == b
  {
    assert ThreadOk(s, a, s.threads[a]) && ThreadOk(s, b, s.threads[b]);
  }

  /** The call a goroutine is in, or has returned from. */
  function CallOf(ph: Phase): Option<Call> {
    match ph
    case Waiting(c) => Some(c)
    case Entered(c) => Some(c)
    case Locked(c) => Some(c)
    case Loaded(c, _) => Some(c)
    case Computed(w) => Some(w.call)
    case Writing(w, _) => Some(w.call)
    case Written(w, _) => Some(w.call)
    case Releasing(r) => Some(r.call)
    case Unlocked(r) => Some(r.call)
    case Returned(r) => Some(r.call)
    case _ => None
  }

  predicate BeginsAfter(s: Store, th: nat, n: nat) {
    th in s.threads && CallOf(s.threads[th].phase).Some? ==> CallOf(s.threads[th].phase).value.since >= n
  }

  lemma StepBeginsAfter(s: Store, e: Event, th: nat, n: nat)
    requires BeginsAfter(s, th, n) && n <= |s.log|
    ensures BeginsAfter(Step(s, e), th, n)
  {
    hide Apply, DrawsNewID;
  }

  lemma {:induction false} RunBeginsAfter(s: Store, es: seq<Event>, th: nat, n: nat)
    requires BeginsAfter(s, th, n) && n <= |s.log|
    ensures BeginsAfter(Run(s, es), th, n)
  {
    hide Step, BeginsAfter;
    if es != [] {
      var front := es[..|es| - 1];
      RunBeginsAfter(s, front, th, n);
      LogGrows(s, front);
      StepBeginsAfter(Run(s, front), es[|es| - 1], th, n);
    }
  }

  /** Real-time order: a call that begins after another has returned takes its place after it. */
  lemma LaterCallsComeLater(s1: Store, a: nat, b: nat, es: seq<Event>)
    requires Inv(s1) && a in s1.threads && s1.threads[a].phase.Returned?
    requires b in s1.threads ==> s1.threads[b].phase.Idle?
    requires b in Run(s1, es).threads && Run(s1, es).threads[b].phase.Returned?
    ensures var ra, rb := s1.threads[a].phase.report, Run(s1, es).threads[b].phase.report;
            ra.Ran? && ra.outcome.Applied? && rb.Ran? ==> ra.before < rb.before
  {
    hide Apply, Replay, Run, Step, LogOk;
    RunBeginsAfter(s1, es, b, |s1.log|);
    RunInv(s1, es);
    assert ThreadOk(s1, a, s1.threads[a]);
    assert ThreadOk(Run(s1, es), b, Run(s1, es).threads[b]);
  }

  /** Every stored configuration keeps the registry's invariants. */
  lemma StoredRegistryOk(s0: Store, es: seq<Event>)
    requires Init(s0) && RegistryOk(s0.config) && RoutesOk(s0.config)
    ensures RegistryOk(Run(s0, es).config) && RoutesOk(Run(s0, es).config)
  {
    InitInv(s0);
    RunInv(s0, es);
    InitialKept(s0, es);
    hide Replay, RegistryOk, RoutesOk, Step;
    ReplayKeeps(s0.config, Run(s0, es).log);
    ReplayRoutesOk(s0.config, Run(s0, es).log);
  }

  // --- calls get done ---

  /** The call in progress, or just returned from, has broken off. */
  predicate BrokenOff(ph: Phase) {
    (ph.Releasing? || ph.Unlocked? || ph.Returned?) && ph.report.Broke?
  }

  /** Only an error that hits a goroutine itself makes its call break off. */
  lemma OnlyFailBreaks(s: Store, e: Event, th: nat)
    requires th in Step(s, e).threads && BrokenOff(Step(s, e).threads[th].phase)
    ensures (th in s.threads && BrokenOff(s.threads[th].phase)) || e == Fail(th)
  {
    hide Apply, DrawsNewID;
  }

  /** In every run from a fresh store, a call has broken off only if an error hit its goroutine. */
  lemma {:induction false} BrokeOnlyByFail(s0: Store, es: seq<Event>, th: nat)
    requires Init(s0) && th in Run(s0, es).threads && BrokenOff(Run(s0, es).threads[th].phase)
    ensures Fail(th) in es
  {
    hide Step;
    if es != [] {
      var front := es[..|es| - 1];
      assert es == front + [es[|es| - 1]];
      OnlyFailBreaks(Run(s0, front), es[|es| - 1], th);
      if es[|es| - 1] != Fail(th) {
        BrokeOnlyByFail(s0, front, th);
      }
    }
  }

  lemma {:induction false} RunAppend(s: Store, a: seq<Event>, b: seq<Event>)
    ensures Run(s, a + b) == Run(Run(s, a), b)
  {
    hide Step;
    if b == [] {
      assert a + b == a;
    } else {
      assert (a + b)[..|a + b| - 1] == a + b[..|b| - 1];
      RunAppend(s, a, b[..|b| - 1]);
    }
  }

  lemma RunTwo(s: Store, a: Event, b: Event)
    ensures Run(s, [a, b]) == Step(Step(s, a), b)
  {
    hide Step;
    assert [a, b][..1] == [a] && [a][..0] == [];
    assert Run(s, [a]) == Step(s, a);
  }

  /** Nobody stands in the way of a goroutine that is about to call. */
  predicate Undisturbed(s: Store, th: nat) {
    && th in s.threads && s.threads[th].phase.Idle?
    && s.fileLock.None? && s.threads[th].process !in s.mutexes
  }

  function Entering(th: nat, op: Op): seq<Event> {
    [Begin(th, op), TakeMutex(th)] + [TakeLock(th), LoadConfig(th)]
  }

  function Working(th: nat): seq<Event> {
    [RunFunction(th), CreateTemp(th)] + [FinishTemp(th), Rename(th)]
  }

  function Leaving(th: nat): seq<Event> {
    [ReleaseLock(th), ReleaseMutex(th)]
  }

  /** The steps of one call from beginning to return. */
  function Calling(th: nat, op: Op): seq<Event> {
    Entering(th, op) + Working(th) + Leaving(th)
  }

  /** Inside, with both locks and the configuration loaded. */
  function Inside(s: Store, th: nat, op: Op): Store
    requires th in s.threads
  {
    Move(s, th, Loaded(Call(op, |s.log|), s.config))
      .(fileLock := Some(th), mutexes := s.mutexes[s.threads[th].process := th])
  }

  lemma Enters(s: Store, th: nat, op: Op)
    requires Undisturbed(s, th)
    ensures Run(s, Entering(th, op)) == Inside(s, th, op)
  {
    hide Run, Apply, DrawsNewID, AfterFunction, AfterFailure, StepRename;
    RunAppend(s, [Begin(th, op), TakeMutex(th)], [TakeLock(th), LoadConfig(th)]);
    RunTwo(s, Begin(th, op), TakeMutex(th));
    var c, p := Call(op, |s.log|), s.threads[th].process;
    var s1 := Move(s, th, Waiting(c));
    var s2 := Move(s, th, Entered(c)).(mutexes := s.mutexes[p := th]);
    assert Step(s, Begin(th, op)) == s1;
    assert s1.threads[th := Thread(p, Entered(c))] == s2.threads;
    assert Step(s1, TakeMutex(th)) == s2;
    RunTwo(s2, TakeLock(th), LoadConfig(th));
    var s3 := Move(s, th, Locked(c)).(mutexes := s.mutexes[p := th], fileLock := Some(th));
    assert s2.threads[th := Thread(p, Locked(c))] == s3.threads;
    assert Step(s2, TakeLock(th)) == s3;
    assert s3.threads[th := Thread(p, Loaded(c, s.config))] == Inside(s, th, op).threads;
  }

  /** Having run the function: saved when it was applied, unchanged when it was refused. */
  ghost predicate Done(s: Store, s': Store, th: nat, op: Op, ph: Phase)
    requires th in s.threads
  {
    var out := Apply(op, s.config, s.clock);
    && th in s'.threads && s'.threads == s.threads[th := Thread(s.threads[th].process, ph)]
    && s'.clock == s.clock
    && s'.config == (match out case Applied(reg', _) => reg' case Refused(_) => s.config)
    && s'.log == (match out case Applied(_, _) => s.log + [(op, s.clock)] case Refused(_) => s.log)
  }

  lemma Works(s: Store, th: nat, op: Op)
    requires th in s.threads && DrawsNewID(op, s.config)
    ensures var s' := Run(Inside(s, th, op), Working(th));
            var report := Ran(Call(op, |s.log|), s.clock, |s.log|, Apply(op, s.config, s.clock));
            && Done(s, s', th, op, Releasing(report))
            && s'.fileLock == Some(th) && s'.mutexes == s.mutexes[s.threads[th].process := th]
  {
    var i := Inside(s, th, op);
    RunAppend(i, [RunFunction(th), CreateTemp(th)], [FinishTemp(th), Rename(th)]);
    RunTwo(i, RunFunction(th), CreateTemp(th));
    var s2 := Step(Step(i, RunFunction(th)), CreateTemp(th));
    RunTwo(s2, FinishTemp(th), Rename(th));
    hide DrawsNewID, Run;
    match Apply(op, s.config, s.clock)
    case Refused(e) => RefusedWork(s, th, op, e);
    case Applied(reg', reply) => AppliedWork(s, th, op, reg', reply);
  }

  lemma RefusedWork(s: Store, th: nat, op: Op, e: Error)
    requires th in s.threads && DrawsNewID(op, s.config) && Apply(op, s.config, s.clock) == Refused(e)
    ensures var i, report := Inside(s, th, op), Ran(Call(op, |s.log|), s.clock, |s.log|, Refused(e));
            var s' := Step(Step(Step(Step(i, RunFunction(th)), CreateTemp(th)), FinishTemp(th)), Rename(th));
            && Done(s, s', th, op, Releasing(report))
            && s'.fileLock == i.fileLock && s'.mutexes == i.mutexes
  {
    hide Apply, DrawsNewID;
    var i, report := Inside(s, th, op), Ran(Call(op, |s.log|), s.clock, |s.log|, Refused(e));
    var s1 := Move(i, th, Releasing(report));
    assert Step(i, RunFunction(th)) == s1;
    assert Step(s1, CreateTemp(th)) == s1 && Step(s1, FinishTemp(th)) == s1 && Step(s1, Rename(th)) == s1;
  }

  lemma AppliedWork(s: Store, th: nat, op: Op, reg': Registry, reply: Reply)
    requires th in s.threads && DrawsNewID(op, s.config) && Apply(op, s.config, s.clock) == Applied(reg', reply)
    ensures var i, report := Inside(s, th, op), Ran(Call(op, |s.log|), s.clock, |s.log|, Applied(reg', reply));
            var s' := Step(Step(Step(Step(i, RunFunction(th)), CreateTemp(th)), FinishTemp(th)), Rename(th));
            && Done(s, s', th, op, Releasing(report))
            && s'.fileLock == i.fileLock && s'.mutexes == i.mutexes
  {
    hide Apply, DrawsNewID;
    var i, w, n := Inside(s, th, op), Work(Call(op, |s.log|), s.clock, reg', reply), s.nextTemp;
    var s1 := Move(i, th, Computed(w));
    assert Step(i, RunFunction(th)) == s1;
    var s2 := Move(s1, th, Writing(w, n)).(temps := s.temps[n := None], nextTemp := n + 1);
    assert Step(s1, CreateTemp(th)) == s2;
    var s3 := Move(s2, th, Written(w, n)).(temps := s2.temps[n := Some(reg')]);
    assert Step(s2, FinishTemp(th)) == s3;
    assert Step(s3, Rename(th)) == StepRename(s3, th);
  }

  lemma Leaves(s: Store, th: nat, report: Report)
    requires th in s.threads && s.threads[th].phase == Releasing(report)
    ensures var s' := Run(s, Leaving(th));
            s' == s.(threads := s.threads[th := Thread(s.threads[th].process, Returned(report))],
                     fileLock := None, mutexes := s.mutexes - {s.threads[th].process})
  {
    hide Run, Apply, DrawsNewID, AfterFunction, AfterFailure, StepRename;
    RunTwo(s, ReleaseLock(th), ReleaseMutex(th));
    var s1 := Move(s, th, Unlocked(report)).(fileLock := None);
    assert Step(s, ReleaseLock(th)) == s1;
    assert s1.threads[th := Thread(s.threads[th].process, Returned(report))] ==
           s.threads[th := Thread(s.threads[th].process, Returned(report))];
  }

  /** An undisturbed call returns exactly the outcome of its function on the stored configuration, at the
      clock it reads. When applied, what the function made is stored and the function is logged last; when
      refused, the error is reported and the store is as it was. Both locks are free again and the other
      goroutines are where they were. */
  lemma CallReturns(s: Store, th: nat, op: Op)
    requires Undisturbed(s, th) && DrawsNewID(op, s.config)
    ensures var s', out := Run(s, Calling(th, op)), Apply(op, s.config, s.clock);
            && th in s'.threads
            && s'.threads[th].phase == Returned(Ran(Call(op, |s.log|), s.clock, |s.log|, out))
            && s'.threads == s.threads[th := s'.threads[th]]
            && s'.fileLock.None? && s'.mutexes == s.mutexes
            && (out.Applied? ==> s'.config == out.reg && s'.log == s.log + [(op, s.clock)])
            && (out.Refused? ==> s'.config == s.config && s'.log == s.log)
  {
    var report := Ran(Call(op, |s.log|), s.clock, |s.log|, Apply(op, s.config, s.clock));
    hide Run, Apply, DrawsNewID, Entering, Working, Leaving, Inside;
    RunAppend(s, Entering(th, op) + Working(th), Leaving(th));
    RunAppend(s, Entering(th, op), Working(th));
    Enters(s, th, op);
    Works(s, th, op);
    LeavesDone(s, Run(Inside(s, th, op), Working(th)), th, op, report);
  }

  lemma LeavesDone(s: Store, s2: Store, th: nat, op: Op, report: Report)
    requires th in s.threads && s.threads[th].process !in s.mutexes
    requires Done(s, s2, th, op, Releasing(report)) && s2.mutexes == s.mutexes[s.threads[th].process := th]
    ensures var s' := Run(s2, Leaving(th));
            && th in s'.threads && s'.threads == s.threads[th := s'.threads[th]]
            && s'.threads[th].phase == Returned(report)
            && s'.fileLock.None? && s'.mutexes == s.mutexes && s'.config == s2.config && s'.log == s2.log
  {
    hide Run, Apply, Leaving;
    Leaves(s2, th, report);
    SameAgain(s.mutexes, s.threads[th].process, th);
    var p := s.threads[th].process;
    assert s2.threads[th := Thread(p, Returned(report))] == s.threads[th := Thread(p, Returned(report))];
  }

  lemma SameAgain(m: map<nat, nat>, p: nat, th: nat)
    requires p !in m
    ensures m[p := th] - {p} == m
  {
  }

  /** An undisturbed read gets the configuration on disk. */
  lemma ReadReturns(s: Store, th: nat)
    requires th in s.threads && s.threads[th].phase.Idle?
    ensures var s' := Run(s, [BeginRead(th), OpenConfig(th)] + [FinishRead(th)]);
            th in s'.threads && s'.threads[th].phase == HasRead(|s.log|, |s.log|, s.config) && s'.config == s.config
  {
    hide Apply, DrawsNewID, AfterFunction, AfterFailure, StepRename;
    RunAppend(s, [BeginRead(th), OpenConfig(th)], [FinishRead(th)]);
    RunTwo(s, BeginRead(th), OpenConfig(th));
    var s2 := Step(Step(s, BeginRead(th)), OpenConfig(th));
    assert [FinishRead(th)][..0] == [] && Run(s2, [FinishRead(th)]) == Step(s2, FinishRead(th));
    hide Run;
  }
}
