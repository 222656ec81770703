/** One proof in flight: payloads, engine events and job steps in any order. */
module Pipeline {
  import opened Basics

  type Hash = int

  datatype Result = Built | Cancelled | Failed | Discarded | Emulated | Signed | Submitted

  /** Where a job is: waiting for its parent, building, proving, about to make the check
      after the proof, signing, submitting, or over. */
  datatype Stage = Waiting | Building | Proving | Checking | Signing | Submitting | Done(result: Result)

  /** A started job with its two tokens; `early` remembers that it was discarded before
      the check after its proof, `signed` that its proof was signed. */
  datatype Job = Job(number: nat, hash: Hash, cancel: bool, discard: bool, stage: Stage, early: bool, signed: bool)

  datatype Config = Config(prover: bool, submitter: bool, submit: bool)

  /** What the world does at a job's next step: it goes on, it polls again, it fails, or
      the prover reports that the proof was cancelled. */
  datatype Outcome = Go | Poll | Fail | ProverCancelled

  datatype Event =
    | Payload(number: nat, hash: Hash)
    | Executed(number: nat, hash: Hash, recent: bool)
    | Invalid(hash: Hash)
    | Committed(number: nat, hash: Hash)
    | Advance(job: nat, outcome: Outcome)

  /** All jobs ever started, oldest first; the one in flight; the window of hashes. */
  datatype State = State(jobs: seq<Job>, current: Option<nat>, started: seq<Hash>)

  const WINDOW := 64
  const START := State([], None, [])

  // ----- the steps -----------------------------------------------------------------------------------

  function Fire(j: Job): Job { j.(cancel := true) }

  /** Cancel and discard, as for a block that is invalid or left the chain. */
  function Drop(j: Job): Job {
    j.(cancel := true, discard := true, early := j.early || BeforeCheck(j.stage))
  }

  predicate BeforeCheck(s: Stage) {
    s.Waiting? || s.Building? || s.Proving? || s.Checking?
  }

  function OnPayload(s: State, number: nat, hash: Hash): State
    requires s.current.Some? ==> s.current.value < |s.jobs|
  {
    if hash in s.started then s
    else if s.current.Some? && number < s.jobs[s.current.value].number then s
    else
      var jobs := if s.current.Some? then s.jobs[s.current.value := Fire(s.jobs[s.current.value])] else s.jobs;
      var pushed := s.started + [hash];
      State(jobs + [Job(number, hash, false, false, Waiting, false, false)], Some(|jobs|),
            if |pushed| > WINDOW then pushed[1..] else pushed)
  }

  function DropCurrent(s: State): State
    requires s.current.Some? && s.current.value < |s.jobs|
  {
    s.(jobs := s.jobs[s.current.value := Drop(s.jobs[s.current.value])])
  }

  function StepJob(j: Job, o: Outcome, cfg: Config): Job {
    if j.stage.Done? || (o.ProverCancelled? && !j.stage.Proving?) then j
    else if o.Fail? then j.(stage := Done(Failed))
    else
      match j.stage
      case Waiting =>
        if o.Go? then j.(stage := Building) else if j.cancel then j.(stage := Done(Cancelled)) else j
      case Building =>
        if o.Poll? then j
        else j.(stage := if !cfg.prover then Done(Built) else if j.cancel then Done(Cancelled) else Proving)
      case Proving =>
        if o.Go? then j.(stage := Checking) else if o.ProverCancelled? then j.(stage := Done(Cancelled)) else j
      case Checking =>
        j.(stage := if j.discard then Done(Discarded) else if !cfg.submitter then Done(Emulated) else Signing)
      case Signing =>
        if o.Poll? then j else j.(signed := true, stage := if cfg.submit then Submitting else Done(Signed))
      case Submitting =>
        if o.Poll? then j else j.(stage := Done(Submitted))
  }

  function Step(s: State, e: Event, cfg: Config): State
    requires s.current.Some? ==> s.current.value < |s.jobs|
  {
    match e
    case Payload(n, h) => OnPayload(s, n, h)
    case Executed(n, h, recent) => if h !in s.started && recent then OnPayload(s, n, h) else s
    case Invalid(h) =>
      if s.current.Some? && s.jobs[s.current.value].hash == h then DropCurrent(s) else s
    case Committed(n, h) =>
      if s.current.Some? && n <= s.jobs[s.current.value].number && h != s.jobs[s.current.value].hash then DropCurrent(s)
      else s
    case Advance(i, o) => if i < |s.jobs| then s.(jobs := s.jobs[i := StepJob(s.jobs[i], o, cfg)]) else s
  }

  // ----- what every run keeps ----------------------------------------------------------------------------

  /** The newest job is in flight, and every other has its cancel token fired. */
  ghost predicate OneInFlight(s: State) {
    && (s.jobs == [] ==> s.current == None)
    && (s.jobs != [] ==> s.current == Some(|s.jobs| - 1))
    && forall i :: 0 <= i < |s.jobs| - 1 ==> s.jobs[i].cancel
  }

  ghost predicate HeightsGrow(s: State) {
    forall i, j :: 0 <= i < j < |s.jobs| ==> s.jobs[i].number <= s.jobs[j].number
  }

  /** The window holds the newest hashes. */
  ghost predicate WindowIsRecent(s: State) {
    && |s.started| == (if |s.jobs| <= WINDOW then |s.jobs| else WINDOW)
    && forall k :: 0 <= k < |s.started| ==> s.started[k] == s.jobs[|s.jobs| - |s.started| + k].hash
  }

  /** Two jobs for one hash are far apart. */
  ghost predicate RestartsFarApart(s: State) {
    forall i, j :: 0 <= i < j < |s.jobs| && s.jobs[i].hash == s.jobs[j].hash ==> j - i > WINDOW
  }

  /** A job discarded before the check is not past it, and was not signed. */
  predicate Untold(j: Job) {
    && (j.early ==> j.discard && !j.signed && (BeforeCheck(j.stage) || j.stage.Done?))
    && (j.discard && BeforeCheck(j.stage) ==> j.early)
    && (j.signed ==> j.stage.Submitting? || j.stage.Done?)
    && (j.stage == Done(Signed) || j.stage == Done(Submitted) || j.stage.Submitting? ==> j.signed)
  }

  ghost predicate Inv(s: State) {
    && OneInFlight(s) && HeightsGrow(s) && WindowIsRecent(s) && RestartsFarApart(s)
    && forall i :: 0 <= i < |s.jobs| ==> Untold(s.jobs[i])
  }

  lemma StepJobKeeps(j: Job, o: Outcome, cfg: Config)
    requires Untold(j)
    ensures var k := StepJob(j, o, cfg);
            Untold(k) && k.number == j.number && k.hash == j.hash && k.cancel == j.cancel && k.early == j.early
  {
  }

  /** Changing tokens or the stage of one job keeps everything else. */
  lemma ChangeKeeps(s: State, i: nat, j: Job)
    requires Inv(s) && i < |s.jobs| && Untold(j)
    requires j.number == s.jobs[i].number && j.hash == s.jobs[i].hash && (s.jobs[i].cancel ==> j.cancel)
    ensures Inv(s.(jobs := s.jobs[i := j]))
  {
  }

  /** The hash of each of the newest jobs is in the window. */
  lemma InWindow(s: State, i: nat)
    requires Inv(s) && i < |s.jobs| && |s.jobs| - i <= WINDOW
    ensures s.jobs[i].hash in s.started
  {
    var k := i - (|s.jobs| - |s.started|);
    assert s.started[k] == s.jobs[i].hash;
  }

  lemma WindowSlides(s: State, number: nat, hash: Hash)
    requires Inv(s)
    ensures s.current.Some? ==> s.current.value < |s.jobs|
    ensures WindowIsRecent(OnPayload(s, number, hash))
  {
    var t := OnPayload(s, number, hash);
    if t.jobs != s.jobs {
      forall k | 0 <= k < |t.started| ensures t.started[k] == t.jobs[|t.jobs| - |t.started| + k].hash {
        if k < |t.started| - 1 {
          assert |s.started| == WINDOW ==> t.started[k] == s.started[k + 1];
        }
      }
    }
  }

  lemma PayloadKeeps(s: State, number: nat, hash: Hash)
    requires Inv(s)
    ensures s.current.Some? ==> s.current.value < |s.jobs|
    ensures Inv(OnPayload(s, number, hash))
  {
    WindowSlides(s, number, hash);
    var t := OnPayload(s, number, hash);
    if hash !in s.started {
      forall i | 0 <= i < |s.jobs| && |s.jobs| - i <= WINDOW ensures s.jobs[i].hash in s.started {
        InWindow(s, i);
      }
    }
  }

  lemma StepKeeps(s: State, e: Event, cfg: Config)
    requires Inv(s)
    ensures s.current.Some? ==> s.current.value < |s.jobs|
    ensures Inv(Step(s, e, cfg))
  {
    match e
    case Payload(n, h) => PayloadKeeps(s, n, h);
    case Executed(n, h, _) => PayloadKeeps(s, n, h);
    case Advance(i, o) =>
      if i < |s.jobs| {
        StepJobKeeps(s.jobs[i], o, cfg);
        ChangeKeeps(s, i, StepJob(s.jobs[i], o, cfg));
      }
    case _ =>
      if s.current.Some? {
        ChangeKeeps(s, s.current.value, Drop(s.jobs[s.current.value]));
      }
  }

  // ----- what a step does, outright --------------------------------------------------------------------

  /** Only job `i` differs, and not in its block. */
  predicate OnlyJob(s: State, t: State, i: nat) {
    && |t.jobs| == |s.jobs| && t.current == s.current && t.started == s.started
    && (forall k :: 0 <= k < |s.jobs| && k != i ==> t.jobs[k] == s.jobs[k])
    && (i < |s.jobs| ==> t.jobs[i].number == s.jobs[i].number && t.jobs[i].hash == s.jobs[i].hash)
  }

  /** An engine event fires both tokens of the job in flight exactly when the block it is
      for is invalid, or another block was committed at its height or below. */
  lemma EventEffect(s: State, e: Event, cfg: Config)
    requires Inv(s) && (e.Invalid? || e.Committed?)
    ensures s.jobs == [] ==> s.current == None && Step(s, e, cfg) == s
    ensures s.jobs != [] ==>
            var i := |s.jobs| - 1;
            var j, t := s.jobs[i], Step(s, e, cfg);
            var hit := (e.Invalid? && e.hash == j.hash) || (e.Committed? && e.hash != j.hash && e.number <= j.number);
            && OnlyJob(s, t, i) && t.jobs[i].stage == j.stage && t.jobs[i].signed == j.signed
            && (t.jobs[i].cancel <==> j.cancel || hit) && (t.jobs[i].discard <==> j.discard || hit)
  {
  }

  /** A payload, or an executed block that is recent, starts a job exactly when its hash is
      not among the last 64 started and no higher job is in flight. */
  lemma PayloadEffect(s: State, e: Event, cfg: Config)
    requires Inv(s) && (e.Payload? || e.Executed?)
    ensures s.current.Some? ==> s.current.value < |s.jobs|
    ensures var t, n := Step(s, e, cfg), |s.jobs|;
            var starts := (e.Executed? ==> e.recent) && (forall k :: 0 <= k < n && n - k <= 64 ==> s.jobs[k].hash != e.hash) &&
                          (n > 0 ==> s.jobs[n - 1].number <= e.number);
            && (!starts ==> t == s)
            && (starts ==>
                  && |t.jobs| == n + 1 && t.current == Some(n)
                  && t.jobs[n] == Job(e.number, e.hash, false, false, Waiting, false, false)
                  && (forall k :: 0 <= k < n - 1 ==> t.jobs[k] == s.jobs[k])
                  && (n > 0 ==> t.jobs[n - 1] == s.jobs[n - 1].(cancel := true)))
  {
    var n := |s.jobs|;
    if e.hash in s.started {
      var k :| 0 <= k < |s.started| && s.started[k] == e.hash;
      assert s.jobs[n - |s.started| + k].hash == e.hash;
    }
    forall k | 0 <= k < n && n - k <= WINDOW ensures s.jobs[k].hash in s.started { InWindow(s, k); }
  }

  /** What a job's step may do, stage by stage. */
  lemma JobEffect(j: Job, o: Outcome, cfg: Config)
    ensures var k := StepJob(j, o, cfg);
            && (j.stage.Done? ==> k == j)
            && (k.cancel == j.cancel && k.discard == j.discard && k.number == j.number && k.hash == j.hash)
            && (k.stage != j.stage && k.stage.Proving? ==> j.stage.Building? && cfg.prover && !j.cancel)
            && (k.stage != j.stage && k.stage.Signing? ==> j.stage.Checking? && !j.discard && cfg.submitter)
            && (k.stage != j.stage && k.stage.Submitting? ==> j.stage.Signing? && cfg.submit)
            && (k.signed != j.signed ==> k.signed && j.stage.Signing?)
            && (k.stage != j.stage && k.stage == Done(Submitted) ==> j.stage.Submitting?)
            && (k.stage != j.stage && k.stage == Done(Discarded) ==> j.stage.Checking? && j.discard)
            && (k.stage != j.stage && k.stage == Done(Cancelled) ==> j.cancel || (j.stage.Proving? && o.ProverCancelled?))
            && (j.stage.Checking? && (o.Go? || o.Poll?) ==> k.stage != j.stage)
            && (j.stage.Building? && o.Go? && cfg.prover && j.cancel ==> k.stage == Done(Cancelled))
            && (j.stage.Waiting? && o.Poll? && j.cancel ==> k.stage == Done(Cancelled))
            && (j.stage.Proving? && o.Go? ==> k.stage.Checking?)
            && (!j.stage.Done? && o.Fail? ==> k.stage == Done(Failed))
  {
  }

  // ----- runs ----------------------------------------------------------------------------------------------

  ghost function Run(s: State, es: seq<Event>, cfg: Config): (r: State)
    requires Inv(s)
    ensures Inv(r)
    decreases |es|
  {
    if es == [] then s
    else
      StepKeeps(s, es[0], cfg);
      Run(Step(s, es[0], cfg), es[1..], cfg)
  }

  /** Tokens never unfire, jobs keep their block, marks stay, and a job that was discarded
      early stays unsigned. */
  ghost predicate Later(s: State, t: State) {
    && |s.jobs| <= |t.jobs|
    && forall i :: 0 <= i < |s.jobs| ==> LaterJob(s.jobs[i], t.jobs[i])
  }

  predicate LaterJob(j: Job, k: Job) {
    && k.number == j.number && k.hash == j.hash
    && (j.cancel ==> k.cancel) && (j.discard ==> k.discard) && (j.early ==> k.early) && (j.signed ==> k.signed)
  }

  lemma StepLater(s: State, e: Event, cfg: Config)
    requires Inv(s)
    ensures s.current.Some? ==> s.current.value < |s.jobs|
    ensures Later(s, Step(s, e, cfg))
  {
  }

  lemma {:induction false} RunLater(s: State, es: seq<Event>, cfg: Config)
    requires Inv(s)
    ensures Later(s, Run(s, es, cfg))
    decreases |es|
  {
    if es != [] {
      StepKeeps(s, es[0], cfg);
      StepLater(s, es[0], cfg);
      RunLater(Step(s, es[0], cfg), es[1..], cfg);
      var t, r := Step(s, es[0], cfg), Run(s, es, cfg);
      forall i | 0 <= i < |s.jobs| ensures LaterJob(s.jobs[i], r.jobs[i]) {
        assert LaterJob(s.jobs[i], t.jobs[i]) && LaterJob(t.jobs[i], r.jobs[i]);
      }
    }
  }

  /** In every interleaving: all jobs but the newest are cancelled, heights never go down,
      and a hash starts again only after at least 64 other jobs, all at its own height. */
  lemma OneProofInFlight(es: seq<Event>, cfg: Config, i: nat, j: nat)
    requires i < j < |Run(START, es, cfg).jobs|
    ensures var jobs := Run(START, es, cfg).jobs;
            && jobs[i].cancel && jobs[i].number <= jobs[j].number
            && (jobs[i].hash == jobs[j].hash && jobs[i].number == jobs[j].number ==>
                  j - i > WINDOW && forall k :: i <= k <= j ==> jobs[k].number == jobs[i].number)
  {
  }

  /** A job discarded before its check is never signed, whatever happens later. */
  lemma DiscardedNeverSigned(s: State, es: seq<Event>, cfg: Config, i: nat)
    requires Inv(s) && i < |s.jobs| && s.jobs[i].discard && BeforeCheck(s.jobs[i].stage)
    ensures i < |Run(s, es, cfg).jobs|
    ensures var j := Run(s, es, cfg).jobs[i];
            !j.signed && j.stage != Done(Signed) && j.stage != Done(Submitted) && !j.stage.Submitting? && !j.stage.Signing?
  {
    RunLater(s, es, cfg);
    var r := Run(s, es, cfg);
    assert Untold(s.jobs[i]) && LaterJob(s.jobs[i], r.jobs[i]) && Untold(r.jobs[i]);
  }

  /** Dropping the job in flight before its check marks it. */
  lemma DropMarks(s: State, e: Event, cfg: Config)
    requires Inv(s) && s.jobs != [] && BeforeCheck(s.jobs[|s.jobs| - 1].stage)
    requires var cur := s.jobs[|s.jobs| - 1];
             (e.Invalid? && e.hash == cur.hash) || (e.Committed? && e.number <= cur.number && e.hash != cur.hash)
    ensures s.current == Some(|s.jobs| - 1)
    ensures var j := Step(s, e, cfg).jobs[|s.jobs| - 1];
            j.early && j.discard && j.cancel && BeforeCheck(j.stage)
  {
  }

  // ----- the object -------------------------------------------------------------------------------------------

  class Scheduler {
    var jobs: seq<Job>
    var current: Option<nat>
    var started: seq<Hash>

    ghost function Now(): State
      reads this
    {
      State(jobs, current, started)
    }

    constructor ()
      ensures Now() == START
    {
      jobs, current, started := [], None, [];
    }

    method Receive(number: nat, hash: Hash)
      requires Inv(Now())
      modifies this
      ensures Inv(Now()) && old(Inv(Now())) && Now() == OnPayload(old(Now()), number, hash)
    {
      PayloadKeeps(Now(), number, hash);
      if hash in started { return; }
      if current.Some? {
        var cur := current.value;
        if number < jobs[cur].number { return; }
        jobs := jobs[cur := jobs[cur].(cancel := true)];
      }
      started := started + [hash];
      if |started| > WINDOW { started := started[1..]; }
      current := Some(|jobs|);
      jobs := jobs + [Job(number, hash, false, false, Waiting, false, false)];
    }

    method Notify(e: Event, cfg: Config)
      requires Inv(Now())
      modifies this
      ensures Inv(Now()) && Now() == Step(old(Now()), e, cfg)
    {
      StepKeeps(Now(), e, cfg);
      match e {
        case Payload(n, h) => Receive(n, h);
        case Executed(n, h, recent) => if h !in started && recent { Receive(n, h); }
        case Invalid(h) =>
          if current.Some? && jobs[current.value].hash == h {
            jobs := jobs[current.value := Drop(jobs[current.value])];
          }
        case Committed(n, h) =>
          if current.Some? {
            var cur := jobs[current.value];
            if n <= cur.number && h != cur.hash { jobs := jobs[current.value := Drop(cur)]; }
          }
        case Advance(i, o) =>
          if i < |jobs| { jobs := jobs[i := StepJob(jobs[i], o, cfg)]; }
      }
    }
  }
}
