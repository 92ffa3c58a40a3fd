/** The workspace lock: any number of processes publishing, renewing, reclaiming and releasing, one file-system step at
    a time, and dying at any point. One attempt to take the lock is one task; its number is its nonce. */
module WorkspaceLock {
  import opened Wrappers

  datatype Process = Process(pid: nat, alive: bool)

  datatype Owner = Owner(pid: nat, nonce: nat, expires: int)

  datatype FileName = OwnerFile(nonce: nat) | RenewTemp(nonce: nat)

  /** Why an owner file is being read. */
  datatype Purpose = Reclaiming | Rechecking(suspect: nat) | Renewing | Verifying | Releasing

  /** What a task does next. */
  datatype Pc =
    | Starting | WriteCandidate | Publish | DropCandidate
    | ListFor(purpose: Purpose) | ReadFor(purpose: Purpose, listed: nat)
    | Judge(owner: Owner) | UnlinkOf(suspect: nat) | CheckAge | RemoveEmpty
    | Holding | WriteTemp | RenameTemp | DropTemp | Compromised
    | UnlinkOwn | RemoveOwn | Finished

  datatype Task = Task(process: nat, pc: Pc)

  /** `lock` is the lock directory, if it exists; `candidates` are the directories prepared for publication. */
  datatype State = State(
    clock: int, processes: map<nat, Process>, tasks: map<nat, Task>,
    lock: Option<map<FileName, Owner>>, candidates: map<nat, Option<Owner>>)

  const LEASE: nat := 30000

  // ---- reading the directory ----

  datatype Listing = Missing | One(nonce: nat) | Invalid

  /** The listing half of `readOwnerState`. */
  ghost function ListOwner(lock: Option<map<FileName, Owner>>, ignored: set<FileName>): Listing {
    if lock.None? || lock.value.Keys - ignored == {} then Missing
    else if exists n :: lock.value.Keys - ignored == {OwnerFile(n)} then
      var n :| lock.value.Keys - ignored == {OwnerFile(n)};
      One(n)
    else Invalid
  }

  lemma ListOwnerIsExact(lock: Option<map<FileName, Owner>>, ignored: set<FileName>, n: nat)
    requires lock.Some?
    ensures ListOwner(lock, ignored) == One(n) <==> lock.value.Keys - ignored == {OwnerFile(n)}
  {
    if lock.value.Keys - ignored == {OwnerFile(n)} {
      assert OwnerFile(n) in lock.value.Keys - ignored;
      var m :| lock.value.Keys - ignored == {OwnerFile(m)} && ListOwner(lock, ignored) == One(m);
      assert OwnerFile(m) in lock.value.Keys - ignored;
    }
  }

  /** `ownerProcessIsConfirmedDead`: no running process has the pid. */
  ghost predicate ConfirmedDead(s: State, pid: nat) {
    forall p :: p in s.processes && s.processes[p].alive ==> s.processes[p].pid != pid
  }

  // ---- steps ----

  datatype Step =
    | Spawn(process: nat, pid: nat) | Die(process: nat) | Wait(milliseconds: nat)
    | Begin(nonce: nat, process: nat) | StartRenewal(nonce: nat) | StartRelease(nonce: nat)
    | Act(nonce: nat, aged: bool)

  ghost predicate Alive(s: State, n: nat) {
    n in s.tasks && s.tasks[n].process in s.processes && s.processes[s.tasks[n].process].alive
  }

  ghost predicate Enabled(s: State, step: Step) {
    match step
    case Spawn(p, _) => p !in s.processes
    case Die(p) => p in s.processes
    case Wait(_) => true
    case Begin(n, p) => n !in s.tasks && p in s.processes && s.processes[p].alive
    case StartRenewal(n) => Alive(s, n) && s.tasks[n].pc == Holding
    case StartRelease(n) => Alive(s, n) && s.tasks[n].pc == Holding
    case Act(n, _) => Alive(s, n) && s.tasks[n].pc !in {Holding, Compromised, Finished}
  }

  function At(s: State, n: nat, pc: Pc): State
    requires n in s.tasks
  {
    s.(tasks := s.tasks[n := s.tasks[n].(pc := pc)])
  }

  function MyOwner(s: State, n: nat): Owner
    requires n in s.tasks && s.tasks[n].process in s.processes
  {
    Owner(s.processes[s.tasks[n].process].pid, n, s.clock + LEASE)
  }

  /** What a task does when the owner it is looking for is not there alone. */
  function NotFound(purpose: Purpose): Pc {
    match purpose
    case Reclaiming => Finished
    case Rechecking(_) => Finished
    case Renewing => Compromised
    case Verifying => DropTemp
    case Releasing => Compromised
  }

  ghost function List(s: State, n: nat, purpose: Purpose): State
    requires n in s.tasks
  {
    match ListOwner(s.lock, if purpose == Verifying then {RenewTemp(n)} else {})
    case One(m) => At(s, n, ReadFor(purpose, m))
    case Invalid => At(s, n, NotFound(purpose))
    case Missing => At(s, n, if purpose == Reclaiming && s.lock.Some? then CheckAge else NotFound(purpose))
  }

  ghost function Read(s: State, n: nat, purpose: Purpose, m: nat): State
    requires n in s.tasks
  {
    if s.lock.None? || OwnerFile(m) !in s.lock.value
       || s.lock.value[OwnerFile(m)].nonce != m then At(s, n, NotFound(purpose))
    else match purpose
      case Reclaiming => At(s, n, Judge(s.lock.value[OwnerFile(m)]))
      case Rechecking(suspect) => At(s, n, if m == suspect then UnlinkOf(m) else Finished)
      case Renewing => At(s, n, if m == n then WriteTemp else Compromised)
      case Verifying => At(s, n, if m == n then RenameTemp else DropTemp)
      case Releasing => At(s, n, if m == n then UnlinkOwn else Compromised)
  }

  /** One system call of task `n`; `aged` says whether an empty lock directory is older than a lease. */
  ghost function ActOf(s: State, n: nat, aged: bool): State
    requires n in s.tasks && s.tasks[n].process in s.processes
  {
    match s.tasks[n].pc
    case Starting => At(s, n, WriteCandidate).(candidates := s.candidates[n := None])
    case WriteCandidate => At(s, n, Publish).(candidates := s.candidates[n := Some(MyOwner(s, n))])
    case Publish =>
      // rename onto a missing or empty directory succeeds, onto any other it fails
      if n in s.candidates && s.candidates[n].Some? && (s.lock.None? || s.lock.value == map[]) then
        At(s, n, Holding).(lock := Some(map[OwnerFile(n) := s.candidates[n].value]), candidates := s.candidates - {n})
      else At(s, n, DropCandidate)
    case DropCandidate => At(s, n, ListFor(Reclaiming)).(candidates := s.candidates - {n})
    case ListFor(purpose) => List(s, n, purpose)
    case ReadFor(purpose, m) => Read(s, n, purpose, m)
    case Judge(owner) =>
      At(s, n, if owner.expires > s.clock || !ConfirmedDead(s, owner.pid) then Finished
         else ListFor(Rechecking(owner.nonce)))
    case UnlinkOf(m) =>
      if s.lock.Some? && OwnerFile(m) in s.lock.value then
        At(s, n, RemoveEmpty).(lock := Some(s.lock.value - {OwnerFile(m)}))
      else At(s, n, Finished)
    case CheckAge => At(s, n, if aged then RemoveEmpty else Finished)
    case RemoveEmpty => At(s, n, Finished).(lock := if s.lock == Some(map[]) then None else s.lock)
    case WriteTemp =>
      if s.lock.None? then At(s, n, Compromised)
      else At(s, n, ListFor(Verifying)).(lock := Some(s.lock.value[RenewTemp(n) := MyOwner(s, n)]))
    case RenameTemp =>
      if s.lock.None? || RenewTemp(n) !in s.lock.value then At(s, n, Compromised)
      else At(s, n, Holding).(lock := Some((s.lock.value - {RenewTemp(n)})[OwnerFile(n) := s.lock.value[RenewTemp(n)]]))
    case DropTemp =>
      At(s, n, Compromised).(lock := if s.lock.Some? then Some(s.lock.value - {RenewTemp(n)}) else None)
    case UnlinkOwn =>
      if s.lock.Some? && OwnerFile(n) in s.lock.value then
        At(s, n, RemoveOwn).(lock := Some(s.lock.value - {OwnerFile(n)}))
      else At(s, n, Compromised)
    case RemoveOwn => At(s, n, Finished).(lock := if s.lock == Some(map[]) then None else s.lock)
    case _ => s
  }

  ghost function Apply(s: State, step: Step): State
    requires Enabled(s, step)
  {
    match step
    case Spawn(p, pid) => s.(processes := s.processes[p := Process(pid, true)])
    case Die(p) => s.(processes := s.processes[p := s.processes[p].(alive := false)])
    case Wait(ms) => s.(clock := s.clock + ms)
    case Begin(n, p) => s.(tasks := s.tasks[n := Task(p, Starting)])
    case StartRenewal(n) => At(s, n, ListFor(Renewing))
    case StartRelease(n) => At(s, n, ListFor(Releasing))
    case Act(n, aged) => ActOf(s, n, aged)
  }

  // ---- the invariant ----

  /** From publication until its owner file is gone, a task relies on holding the lock. */
  predicate Critical(pc: Pc) {
    match pc
    case Holding => true
    case WriteTemp => true
    case RenameTemp => true
    case DropTemp => true
    case Compromised => true
    case UnlinkOwn => true
    case ListFor(purpose) => purpose in {Renewing, Verifying, Releasing}
    case ReadFor(purpose, _) => purpose in {Renewing, Verifying, Releasing}
    case _ => false
  }

  ghost predicate Holds(s: State, n: nat) {
    Alive(s, n) && Critical(s.tasks[n].pc)
  }

  predicate MidRenewal(pc: Pc) {
    pc == ListFor(Verifying) || (pc.ReadFor? && pc.purpose == Verifying) || pc == RenameTemp
  }

  /** The record names the process of the task it belongs to. */
  ghost predicate Names(s: State, o: Owner, n: nat) {
    && o.nonce == n && n in s.tasks && s.tasks[n].process in s.processes
    && o.pid == s.processes[s.tasks[n].process].pid
  }

  ghost predicate HasFile(lock: Option<map<FileName, Owner>>, f: FileName) {
    lock.Some? && f in lock.value
  }

  ghost predicate FilesFit(s: State) {
    s.lock.Some? ==>
      && (forall n :: OwnerFile(n) in s.lock.value ==> Names(s, s.lock.value[OwnerFile(n)], n))
      && (forall n, m :: OwnerFile(n) in s.lock.value && OwnerFile(m) in s.lock.value ==> n == m)
      && (forall n :: RenewTemp(n) in s.lock.value ==>
            && Names(s, s.lock.value[RenewTemp(n)], n) && OwnerFile(n) in s.lock.value
            && (Alive(s, n) ==> MidRenewal(s.tasks[n].pc)))
  }

  ghost predicate HolderFits(s: State, n: nat)
    requires n in s.tasks
  {
    var pc := s.tasks[n].pc;
    if !Holds(s, n) then Alive(s, n) ==> !HasFile(s.lock, OwnerFile(n))
    else
      && s.lock.Some? && OwnerFile(n) in s.lock.value
      && pc != Compromised && pc != DropTemp
      && (pc.ReadFor? ==> pc.listed == n)
      && (MidRenewal(pc) ==> RenewTemp(n) in s.lock.value)
  }

  ghost predicate Gone(s: State, n: nat) {
    n in s.tasks && s.tasks[n].process in s.processes && !s.processes[s.tasks[n].process].alive
  }

  ghost predicate NoTemp(s: State, n: nat) {
    s.lock.Some? ==> RenewTemp(n) !in s.lock.value
  }

  ghost predicate SuspicionFits(s: State, pc: Pc) {
    match pc
    case Judge(o) => Names(s, o, o.nonce)
    case ListFor(Rechecking(n)) => Gone(s, n)
    case ReadFor(Rechecking(n), m) => Gone(s, n) && (m == n ==> NoTemp(s, n))
    case UnlinkOf(n) => Gone(s, n) && NoTemp(s, n)
    case _ => true
  }

  ghost predicate TaskFits(s: State, n: nat)
    requires n in s.tasks
  {
    && s.tasks[n].process in s.processes
    && HolderFits(s, n) && SuspicionFits(s, s.tasks[n].pc)
    && (s.tasks[n].pc == Publish ==> n in s.candidates && s.candidates[n].Some? && Names(s, s.candidates[n].value, n))
  }

  ghost predicate Inv(s: State) {
    FilesFit(s) && forall n :: n in s.tasks ==> TaskFits(s, n)
  }

  /** Mutual exclusion: two running tasks that rely on the lock are one and the same. */
  lemma AtMostOneHolder(s: State, n: nat, m: nat)
    requires Inv(s) && Holds(s, n) && Holds(s, m)
    ensures n == m
  {
    assert TaskFits(s, n) && TaskFits(s, m);
  }

  // ---- every step keeps the invariant ----

  /** Only task `n` moved; what the others rely on in the directory is still there, and nothing they rule out was
      added. */
  ghost predicate OnlyMoved(s: State, s': State, n: nat) {
    && n in s.tasks && s'.processes == s.processes
    && (exists pc :: s'.tasks == s.tasks[n := s.tasks[n].(pc := pc)])
    && (forall m :: m != n && m in s.candidates ==> m in s'.candidates && s'.candidates[m] == s.candidates[m])
    && (forall m :: m != n && Holds(s, m) ==>
          && HasFile(s'.lock, OwnerFile(m)) && (HasFile(s.lock, RenewTemp(m)) ==> HasFile(s'.lock, RenewTemp(m))))
    && (forall m :: m != n && HasFile(s'.lock, RenewTemp(m)) ==> HasFile(s.lock, RenewTemp(m)))
    && (forall m :: m != n && HasFile(s'.lock, OwnerFile(m)) ==> HasFile(s.lock, OwnerFile(m)))
  }

  lemma OneTaskMoves(s: State, s': State, n: nat)
    requires Inv(s) && Alive(s, n) && OnlyMoved(s, s', n) && FilesFit(s') && TaskFits(s', n)
    ensures Inv(s')
  {
    forall m | m in s'.tasks && m != n
      ensures TaskFits(s', m)
    {
      assert TaskFits(s, m) && s'.tasks[m] == s.tasks[m];
      assert Holds(s', m) == Holds(s, m);
      assert forall k :: Gone(s', k) == Gone(s, k);
      assert forall k :: Gone(s, k) && NoTemp(s, k) ==> NoTemp(s', k);
    }
  }

  /** A step that leaves the directory alone. */
  lemma MoveKeepsInv(s: State, n: nat, pc: Pc)
    requires Inv(s) && Alive(s, n) && TaskFits(At(s, n, pc), n)
    requires HasFile(s.lock, RenewTemp(n)) ==> MidRenewal(pc)
    ensures Inv(At(s, n, pc))
  {
    assert TaskFits(s, n);
    var s' := At(s, n, pc);
    forall k, o | Names(s, o, k)
      ensures Names(s', o, k)
    {
    }
    assert forall m :: Holds(s, m) ==> TaskFits(s, m);
    OneTaskMoves(s, s', n);
  }

  /** A holder that looks for its own owner file always finds it alone, whatever the other tasks do. */
  lemma HolderSeesItself(s: State, n: nat, purpose: Purpose)
    requires Inv(s) && Holds(s, n) && s.tasks[n].pc == ListFor(purpose)
    ensures ListOwner(s.lock, if purpose == Verifying then {RenewTemp(n)} else {}) == One(n)
  {
    assert TaskFits(s, n);
    var ignored := if purpose == Verifying then {RenewTemp(n)} else {};
    assert forall m :: RenewTemp(m) in s.lock.value ==> OwnerFile(m) in s.lock.value && m == n;
    forall f | f in s.lock.value.Keys - ignored
      ensures f == OwnerFile(n)
    {
      assert f == OwnerFile(f.nonce) || f == RenewTemp(f.nonce);
    }
    assert s.lock.value.Keys - ignored == {OwnerFile(n)};
    ListOwnerIsExact(s.lock, ignored, n);
  }

  lemma ListKeepsInv(s: State, n: nat, purpose: Purpose)
    requires Inv(s) && Alive(s, n) && s.tasks[n].pc == ListFor(purpose)
    ensures Inv(List(s, n, purpose))
  {
    assert TaskFits(s, n);
    var pc := List(s, n, purpose).tasks[n].pc;
    assert List(s, n, purpose) == At(s, n, pc);
    if Critical(ListFor(purpose)) {
      HolderSeesItself(s, n, purpose);
    } else if s.lock.Some? && pc.ReadFor? {
      ListOwnerIsExact(s.lock, {}, pc.listed);
      assert s.lock.value.Keys - {} == s.lock.value.Keys;
    }
    MoveKeepsInv(s, n, pc);
  }

  lemma ReadKeepsInv(s: State, n: nat, purpose: Purpose, m: nat)
    requires Inv(s) && Alive(s, n) && s.tasks[n].pc == ReadFor(purpose, m)
    ensures Inv(Read(s, n, purpose, m))
  {
    assert TaskFits(s, n);
    var pc := Read(s, n, purpose, m).tasks[n].pc;
    assert Read(s, n, purpose, m) == At(s, n, pc);
    MoveKeepsInv(s, n, pc);
  }

  lemma JudgeKeepsInv(s: State, n: nat, owner: Owner)
    requires Inv(s) && Alive(s, n) && s.tasks[n].pc == Judge(owner)
    ensures Inv(ActOf(s, n, false))
  {
    assert TaskFits(s, n);
    MoveKeepsInv(s, n, ActOf(s, n, false).tasks[n].pc);
  }

  /** Publication takes an empty or missing directory, so nobody can be holding the lock. */
  lemma PublishKeepsInv(s: State, n: nat)
    requires Inv(s) && Alive(s, n) && s.tasks[n].pc == Publish
    ensures Inv(ActOf(s, n, false))
  {
    var s' := ActOf(s, n, false);
    assert TaskFits(s, n);
    if s.lock.None? || s.lock.value == map[] {
      assert forall m :: m in s.tasks ==> TaskFits(s, m);
      assert forall m :: !Holds(s, m);
      assert Names(s', s.candidates[n].value, n);
      OneTaskMoves(s, s', n);
    } else {
      MoveKeepsInv(s, n, DropCandidate);
    }
  }

  lemma CandidateKeepsInv(s: State, n: nat)
    requires Inv(s) && Alive(s, n) && s.tasks[n].pc in {Starting, WriteCandidate, DropCandidate}
    ensures Inv(ActOf(s, n, false))
  {
    var s' := ActOf(s, n, false);
    assert TaskFits(s, n);
    forall k, o | Names(s, o, k)
      ensures Names(s', o, k)
    {
    }
    assert forall m :: Holds(s, m) ==> TaskFits(s, m);
    OneTaskMoves(s, s', n);
  }

  /** The unlink of a reclaim hits the owner file of a dead task only. */
  lemma UnlinkKeepsInv(s: State, n: nat, m: nat)
    requires Inv(s) && Alive(s, n) && s.tasks[n].pc == UnlinkOf(m)
    ensures Inv(ActOf(s, n, false))
  {
    var s' := ActOf(s, n, false);
    assert TaskFits(s, n);
    assert forall k :: Holds(s, k) ==> TaskFits(s, k);
    forall k, o | Names(s, o, k)
      ensures Names(s', o, k)
    {
    }
    OneTaskMoves(s, s', n);
  }

  lemma RemoveDirectoryKeepsInv(s: State, n: nat)
    requires Inv(s) && Alive(s, n) && s.tasks[n].pc in {RemoveEmpty, RemoveOwn}
    ensures Inv(ActOf(s, n, false))
  {
    var s' := ActOf(s, n, false);
    assert TaskFits(s, n);
    assert forall k :: Holds(s, k) ==> TaskFits(s, k);
    forall k, o | Names(s, o, k)
      ensures Names(s', o, k)
    {
    }
    OneTaskMoves(s, s', n);
  }

  lemma RenewalKeepsInv(s: State, n: nat)
    requires Inv(s) && Alive(s, n) && s.tasks[n].pc in {WriteTemp, RenameTemp}
    ensures Inv(ActOf(s, n, false))
  {
    var s' := ActOf(s, n, false);
    assert TaskFits(s, n);
    forall k | Holds(s, k)
      ensures k == n
    {
      AtMostOneHolder(s, n, k);
    }
    forall k, o | Names(s, o, k)
      ensures Names(s', o, k)
    {
    }
    OneTaskMoves(s, s', n);
  }

  lemma WithdrawalKeepsInv(s: State, n: nat)
    requires Inv(s) && Alive(s, n) && s.tasks[n].pc in {DropTemp, UnlinkOwn}
    ensures Inv(ActOf(s, n, false))
  {
    var s' := ActOf(s, n, false);
    assert TaskFits(s, n);
    forall k | Holds(s, k)
      ensures k == n
    {
      AtMostOneHolder(s, n, k);
    }
    forall k, o | Names(s, o, k)
      ensures Names(s', o, k)
    {
    }
    OneTaskMoves(s, s', n);
  }

  lemma ActKeepsInv(s: State, n: nat, aged: bool)
    requires Inv(s) && Enabled(s, Act(n, aged))
    ensures Inv(ActOf(s, n, aged))
  {
    assert TaskFits(s, n);
    match s.tasks[n].pc
    case ListFor(purpose) => ListKeepsInv(s, n, purpose);
    case ReadFor(purpose, m) => ReadKeepsInv(s, n, purpose, m);
    case Judge(owner) => JudgeKeepsInv(s, n, owner);
    case Publish => PublishKeepsInv(s, n);
    case UnlinkOf(m) => UnlinkKeepsInv(s, n, m);
    case CheckAge => MoveKeepsInv(s, n, if aged then RemoveEmpty else Finished);
    case RemoveEmpty => RemoveDirectoryKeepsInv(s, n);
    case RemoveOwn => RemoveDirectoryKeepsInv(s, n);
    case Starting => CandidateKeepsInv(s, n);
    case WriteCandidate => CandidateKeepsInv(s, n);
    case DropCandidate => CandidateKeepsInv(s, n);
    case WriteTemp => RenewalKeepsInv(s, n);
    case RenameTemp => RenewalKeepsInv(s, n);
    case _ => WithdrawalKeepsInv(s, n);
  }

  /** Processes starting and dying, time passing, and tasks beginning. */
  lemma WorldKeepsInv(s: State, step: Step)
    requires Inv(s) && Enabled(s, step) && !step.Act? && !step.StartRenewal? && !step.StartRelease?
    ensures Inv(Apply(s, step))
  {
    var s' := Apply(s, step);
    assert forall n :: n in s.tasks ==> TaskFits(s, n);
    assert forall n, o :: Names(s, o, n) ==> Names(s', o, n);
    assert forall n :: Gone(s, n) ==> Gone(s', n);
    assert FilesFit(s');
    forall n | n in s'.tasks
      ensures TaskFits(s', n)
    {
      assert n in s.tasks ==> TaskFits(s, n);
    }
  }

  lemma StepKeepsInv(s: State, step: Step)
    requires Inv(s) && Enabled(s, step)
    ensures Inv(Apply(s, step))
  {
    match step
    case Act(n, aged) => ActKeepsInv(s, n, aged);
    case StartRenewal(n) => assert TaskFits(s, n); MoveKeepsInv(s, n, ListFor(Renewing));
    case StartRelease(n) => assert TaskFits(s, n); MoveKeepsInv(s, n, ListFor(Releasing));
    case _ => WorldKeepsInv(s, step);
  }

  // ---- over whole runs ----

  ghost predicate Initial(s: State) {
    s.tasks == map[] && s.lock.None? && s.candidates == map[]
  }

  /** `s` is followed by `last` through the steps, each possible when it happens. */
  ghost predicate Runs(s: State, steps: seq<Step>, last: State)
    decreases |steps|
  {
    if steps == [] then last == s
    else Enabled(s, steps[0]) && Runs(Apply(s, steps[0]), steps[1..], last)
  }

  lemma {:induction false} RunKeepsInv(s: State, steps: seq<Step>, last: State)
    requires Inv(s) && Runs(s, steps, last)
    ensures Inv(last)
    decreases |steps|
  {
    if steps != [] {
      StepKeepsInv(s, steps[0]);
      RunKeepsInv(Apply(s, steps[0]), steps[1..], last);
    }
  }

  /** In every run, at every moment, at most one running task relies on the lock, and it has never been told
      otherwise. */
  lemma {:induction false} MutualExclusion(s: State, steps: seq<Step>, last: State, n: nat, m: nat)
    requires Initial(s) && Runs(s, steps, last) && Holds(last, n) && Holds(last, m)
    ensures n == m
    ensures last.tasks[n].pc != Compromised && last.lock.Some? && OwnerFile(n) in last.lock.value
  {
    RunKeepsInv(s, steps, last);
    assert TaskFits(last, n);
    AtMostOneHolder(last, n, m);
  }

  /** A candidate directory belongs to an attempt that is about to publish it or to drop it. */
  ghost predicate CandidatesFit(s: State) {
    forall n :: n in s.candidates ==>
      n in s.tasks && s.tasks[n].process in s.processes
      && (Alive(s, n) ==> s.tasks[n].pc in {WriteCandidate, Publish, DropCandidate})
  }

  lemma ActLeavesCandidates(s: State, n: nat, aged: bool)
    requires Alive(s, n) && s.tasks[n].pc !in {Starting, WriteCandidate, Publish, DropCandidate}
    ensures ActOf(s, n, aged).candidates == s.candidates && ActOf(s, n, aged).processes == s.processes
    ensures ActOf(s, n, aged).tasks == s.tasks[n := s.tasks[n].(pc := ActOf(s, n, aged).tasks[n].pc)]
  {
    hide ListOwner, ConfirmedDead;
  }

  lemma StepKeepsCandidates(s: State, step: Step)
    requires CandidatesFit(s) && Enabled(s, step)
    ensures CandidatesFit(Apply(s, step))
  {
    if step.Act? && s.tasks[step.nonce].pc !in {Starting, WriteCandidate, Publish, DropCandidate} {
      hide ActOf;
      ActLeavesCandidates(s, step.nonce, step.aged);
    } else {
      hide List, Read, ConfirmedDead;
    }
  }

  lemma {:induction false} RunKeepsCandidates(s: State, steps: seq<Step>, last: State)
    requires CandidatesFit(s) && Runs(s, steps, last)
    ensures CandidatesFit(last)
    decreases |steps|
  {
    if steps != [] {
      StepKeepsCandidates(s, steps[0]);
      RunKeepsCandidates(Apply(s, steps[0]), steps[1..], last);
    }
  }

  /** While its process runs, a task that has finished has left no file behind: no candidate, no owner file and no
      renewed record. A task that holds the lock has only its owner file. */
  lemma {:induction false} FinishedLeavesNothing(s: State, steps: seq<Step>, last: State, n: nat)
    requires Initial(s) && Runs(s, steps, last) && Alive(last, n) && last.tasks[n].pc in {Finished, Holding}
    ensures last.tasks[n].pc == Finished ==> !HasFile(last.lock, OwnerFile(n))
    ensures !HasFile(last.lock, RenewTemp(n)) && n !in last.candidates
  {
    RunKeepsInv(s, steps, last);
    RunKeepsCandidates(s, steps, last);
    assert TaskFits(last, n);
  }

  /** No step of another task, a reclaim included, takes away a running holder's owner file, expired or not. */
  lemma OthersLeaveTheHolderAlone(s: State, step: Step, n: nat)
    requires Inv(s) && Enabled(s, step) && Holds(s, n) && !(step.Act? && step.nonce == n)
    ensures HasFile(Apply(s, step).lock, OwnerFile(n))
    ensures Alive(Apply(s, step), n) ==> Holds(Apply(s, step), n)
  {
    assert TaskFits(s, n);
    StepKeepsInv(s, step);
    if step.Act? {
      assert TaskFits(Apply(s, step), n);
    }
  }

  /** A holder that died between writing its renewed record and renaming it leaves two files behind. */
  ghost predicate Stuck(s: State, n: nat) {
    Gone(s, n) && HasFile(s.lock, OwnerFile(n)) && HasFile(s.lock, RenewTemp(n))
  }

  lemma StuckStays(s: State, step: Step, n: nat)
    requires Inv(s) && Enabled(s, step) && Stuck(s, n)
    ensures Stuck(Apply(s, step), n)
  {
    if step.Act? {
      assert TaskFits(s, step.nonce);
      assert Alive(s, step.nonce);
      assert step.nonce != n;
    }
  }

  /** Such a lock directory is never reclaimed: no task ever holds the lock again, however long the others wait. */
  lemma {:induction false} NobodyHoldsAStuckLock(s: State, steps: seq<Step>, last: State, n: nat, m: nat)
    requires Inv(s) && Runs(s, steps, last) && Stuck(s, n)
    ensures Stuck(last, n) && !Holds(last, m)
    decreases |steps|
  {
    if steps == [] {
      assert forall k :: k in s.tasks ==> TaskFits(s, k);
    } else {
      StuckStays(s, steps[0], n);
      StepKeepsInv(s, steps[0]);
      NobodyHoldsAStuckLock(Apply(s, steps[0]), steps[1..], last, n, m);
    }
  }

  // ---- which dead owners can be replaced ----

  /** One more step at the end of a run. */
  lemma {:induction false} OneMore(s: State, steps: seq<Step>, mid: State, step: Step)
    requires Runs(s, steps, mid) && Enabled(mid, step)
    ensures Runs(s, steps + [step], Apply(mid, step))
    decreases |steps|
  {
    hide Apply, Enabled;
    if steps == [] {
      assert ([step])[1..] == [] && Runs(Apply(mid, step), [], Apply(mid, step));
      assert steps + [step] == [step];
    } else {
      OneMore(Apply(s, steps[0]), steps[1..], mid, step);
      assert (steps + [step])[1..] == steps[1..] + [step];
    }
  }

  lemma {:induction false} RunsOn(s: State, xs: seq<Step>, mid: State, ys: seq<Step>, last: State)
    requires Runs(s, xs, mid) && Runs(mid, ys, last)
    ensures Runs(s, xs + ys, last)
    decreases |xs|
  {
    hide Apply, Enabled;
    if xs == [] {
      assert xs + ys == ys;
    } else {
      RunsOn(Apply(s, xs[0]), xs[1..], mid, ys, last);
      assert (xs + ys)[1..] == xs[1..] + ys;
    }
  }

  ghost predicate NoDeaths(steps: seq<Step>) {
    forall i :: 0 <= i < |steps| ==> !steps[i].Die?
  }

  /** Nobody but task `m` does anything. */
  ghost predicate OwnSteps(steps: seq<Step>, m: nat) {
    forall i :: 0 <= i < |steps| ==>
      steps[i] == Act(m, true) || steps[i] == StartRenewal(m) || steps[i] == StartRelease(m)
  }

  /** Task `m` acts, and nobody else. */
  lemma Acts(s: State, steps: seq<Step>, mid: State, m: nat) returns (longer: seq<Step>, next: State)
    requires Runs(s, steps, mid) && NoDeaths(steps) && Enabled(mid, Act(m, true))
    ensures Runs(s, longer, next) && NoDeaths(longer) && next == ActOf(mid, m, true)
    ensures OwnSteps(steps, m) ==> OwnSteps(longer, m)
  {
    longer, next := steps + [Act(m, true)], ActOf(mid, m, true);
    OneMore(s, steps, mid, Act(m, true));
  }

  /** Only task `m` has moved, to `pc`; it has left no candidate behind. */
  ghost predicate Moved(s: State, t: State, m: nat, pc: Pc)
    requires m in s.tasks
  {
    t.clock == s.clock && t.processes == s.processes && t.tasks == s.tasks[m := s.tasks[m].(pc := pc)]
  }

  /** A task that finds no lock directory, or an empty one, takes the lock. */
  lemma TakesTheLock(s: State, m: nat) returns (steps: seq<Step>, last: State)
    requires Alive(s, m) && s.tasks[m].pc == Starting && (s.lock.None? || s.lock.value == map[])
    ensures Runs(s, steps, last) && NoDeaths(steps) && OwnSteps(steps, m) && Moved(s, last, m, Holding)
    ensures last.lock == Some(map[OwnerFile(m) := MyOwner(s, m)])
  {
    hide Runs, NoDeaths, OwnSteps;
    steps, last := [], s;
    NoSteps(s);
    steps, last := Acts(s, steps, last, m);
    steps, last := Acts(s, steps, last, m);
    steps, last := Acts(s, steps, last, m);
  }

  lemma {:induction false} NoSteps(s: State)
    ensures Runs(s, [], s) && NoDeaths([]) && forall m :: OwnSteps([], m)
  {
  }

  /** One that finds another's file in it looks closer. */
  lemma KnocksInVain(s: State, m: nat) returns (steps: seq<Step>, last: State)
    requires Alive(s, m) && s.tasks[m].pc == Starting && s.lock.Some? && s.lock.value != map[]
    ensures Runs(s, steps, last) && NoDeaths(steps) && OwnSteps(steps, m)
    ensures Moved(s, last, m, ListFor(Reclaiming)) && last.lock == s.lock
  {
    hide Runs, NoDeaths, OwnSteps;
    steps, last := [], s;
    NoSteps(s);
    steps, last := Acts(s, steps, last, m);
    steps, last := Acts(s, steps, last, m);
    steps, last := Acts(s, steps, last, m);
    steps, last := Acts(s, steps, last, m);
  }

  /** The directory of a dead owner holds its owner file and nothing else, unless the owner died while renewing. */
  lemma OnlyItsFile(s: State, n: nat)
    requires FilesFit(s) && HasFile(s.lock, OwnerFile(n)) && NoTemp(s, n)
    ensures s.lock.value.Keys == {OwnerFile(n)} && ListOwner(s.lock, {}) == One(n)
  {
    forall f | f in s.lock.value.Keys
      ensures f == OwnerFile(n)
    {
      assert f == OwnerFile(f.nonce) || f == RenewTemp(f.nonce);
    }
    assert s.lock.value.Keys - {} == {OwnerFile(n)};
    ListOwnerIsExact(s.lock, {}, n);
  }

  /** The task has confirmed the owner's death and is about to remove its file. */
  predicate Suspects(pc: Pc, n: nat) {
    pc == ListFor(Rechecking(n)) || pc == ReadFor(Rechecking(n), n) || pc == UnlinkOf(n)
  }

  /** What such a task does when it comes to act. */
  lemma RemovesTheFile(s: State, m: nat, n: nat) returns (steps: seq<Step>, last: State)
    requires FilesFit(s) && HasFile(s.lock, OwnerFile(n)) && NoTemp(s, n) && Alive(s, m) && Suspects(s.tasks[m].pc, n)
    ensures Runs(s, steps, last) && NoDeaths(steps) && Moved(s, last, m, Finished) && last.lock.None?
  {
    hide Runs, NoDeaths, OwnSteps;
    OnlyItsFile(s, n);
    assert s.lock.value - {OwnerFile(n)} == map[];
    steps, last := [], s;
    NoSteps(s);
    if last.tasks[m].pc == ListFor(Rechecking(n)) { steps, last := Acts(s, steps, last, m); }
    if last.tasks[m].pc == ReadFor(Rechecking(n), n) { steps, last := Acts(s, steps, last, m); }
    assert Moved(s, last, m, UnlinkOf(n)) && last.lock == s.lock;
    steps, last := Acts(s, steps, last, m);
    steps, last := Acts(s, steps, last, m);
  }

  function PidOf(s: State, n: nat): nat
    requires n in s.tasks && s.tasks[n].process in s.processes
  {
    s.processes[s.tasks[n].process].pid
  }

  /** A task that finds an expired lease and can confirm its owner's death removes the file. */
  lemma Judges(s: State, m: nat, n: nat) returns (steps: seq<Step>, last: State)
    requires FilesFit(s) && Gone(s, n) && HasFile(s.lock, OwnerFile(n)) && NoTemp(s, n)
    requires Alive(s, m) && s.tasks[m].pc == ListFor(Reclaiming)
    requires s.lock.value[OwnerFile(n)].expires <= s.clock && ConfirmedDead(s, PidOf(s, n))
    ensures Runs(s, steps, last) && NoDeaths(steps) && Moved(s, last, m, ListFor(Rechecking(n))) && last.lock == s.lock
  {
    hide Runs, NoDeaths, OwnSteps;
    OnlyItsFile(s, n);
    steps, last := [], s;
    NoSteps(s);
    steps, last := Acts(s, steps, last, m);
    steps, last := Acts(s, steps, last, m);
    steps, last := Acts(s, steps, last, m);
  }

  lemma FreshNumber(used: set<nat>) returns (k: nat)
    ensures k !in used
  {
    k := 0;
    var seen: set<nat> := {};
    while k in used
      invariant seen <= used && forall j: nat :: j in seen <==> j < k
      decreases used - seen
    {
      seen := seen + {k};
      k := k + 1;
    }
  }

  /** A new process starts a new attempt. */
  lemma Arrives(s: State, pid: nat) returns (steps: seq<Step>, last: State, m: nat)
    ensures Runs(s, steps, last) && NoDeaths(steps) && m !in s.tasks && Alive(last, m) && last.tasks[m].pc == Starting
    ensures last.lock == s.lock && last.clock == s.clock && last.tasks == s.tasks[m := last.tasks[m]]
    ensures exists p: nat :: p !in s.processes && last.processes == s.processes[p := Process(pid, true)]
  {
    var p := FreshNumber(s.processes.Keys);
    m := FreshNumber(s.tasks.Keys);
    NoSteps(s);
    OneMore(s, [], s, Spawn(p, pid));
    var spawned := Apply(s, Spawn(p, pid));
    OneMore(s, [] + [Spawn(p, pid)], spawned, Begin(m, p));
    steps, last := [] + [Spawn(p, pid)] + [Begin(m, p)], Apply(spawned, Begin(m, p));
  }

  /** Without a lock directory a new attempt comes to hold the lock. */
  lemma NewAttemptHolds(s: State) returns (steps: seq<Step>, last: State, m: nat)
    requires s.lock.None?
    ensures Runs(s, steps, last) && NoDeaths(steps) && m !in s.tasks && Holds(last, m)
  {
    hide Runs;
    var more, mid;
    steps, mid, m := Arrives(s, 0);
    more, last := TakesTheLock(mid, m);
    RunsOn(s, steps, mid, more, last);
    steps := steps + more;
  }

  /** What the clearing of a dead owner's directory relies on. */
  ghost predicate Expired(s: State, n: nat) {
    && Inv(s) && Gone(s, n) && HasFile(s.lock, OwnerFile(n)) && NoTemp(s, n)
    && s.lock.value[OwnerFile(n)].expires <= s.clock && ConfirmedDead(s, PidOf(s, n))
  }

  /** Another attempt arrives and finds the directory taken. */
  lemma FindsItTaken(s: State, n: nat) returns (steps: seq<Step>, last: State, m: nat)
    requires Expired(s, n)
    ensures Runs(s, steps, last) && NoDeaths(steps) && Expired(last, n) && Alive(last, m)
            && last.tasks[m].pc == ListFor(Reclaiming)
    ensures s.tasks.Keys <= last.tasks.Keys
  {
    hide Runs, NoDeaths, OwnSteps;
    var more, mid;
    steps, mid, m := Arrives(s, PidOf(s, n) + 1);
    more, last := KnocksInVain(mid, m);
    RunsOn(s, steps, mid, more, last);
    assert NoDeaths(steps + more) by { NoDeathsOn(steps, more); }
    steps := steps + more;
    RunKeepsInv(s, steps, last);
    hide Inv;
    assert Gone(last, n);
  }

  lemma NoDeathsOn(xs: seq<Step>, ys: seq<Step>)
    requires NoDeaths(xs) && NoDeaths(ys)
    ensures NoDeaths(xs + ys)
  {
  }

  lemma WaitsForExpiry(s: State, n: nat) returns (steps: seq<Step>, last: State)
    requires Inv(s) && Gone(s, n) && HasFile(s.lock, OwnerFile(n)) && NoTemp(s, n) && ConfirmedDead(s, PidOf(s, n))
    ensures Runs(s, steps, last) && NoDeaths(steps) && Expired(last, n) && last.tasks == s.tasks
  {
    hide Runs;
    var owner := s.lock.value[OwnerFile(n)];
    var wait: nat := if owner.expires > s.clock then owner.expires - s.clock else 0;
    NoSteps(s);
    OneMore(s, [], s, Wait(wait));
    steps, last := [] + [Wait(wait)], Apply(s, Wait(wait));
    RunKeepsInv(s, steps, last);
    hide Inv;
    assert Gone(last, n);
  }

  /** A new attempt clears the directory away. */
  lemma ClearedAway(s: State, n: nat) returns (steps: seq<Step>, last: State)
    requires Inv(s) && Gone(s, n) && HasFile(s.lock, OwnerFile(n)) && NoTemp(s, n) && ConfirmedDead(s, PidOf(s, n))
    ensures Runs(s, steps, last) && NoDeaths(steps) && last.lock.None? && s.tasks.Keys <= last.tasks.Keys
  {
    hide Runs, NoDeaths, OwnSteps;
    var more, waited, found, judged, m;
    steps, waited := WaitsForExpiry(s, n);
    more, found, m := FindsItTaken(waited, n);
    RunsOn(s, steps, waited, more, found);
    NoDeathsOn(steps, more);
    steps := steps + more;
    more, judged := Judges(found, m, n);
    RunsOn(s, steps, found, more, judged);
    NoDeathsOn(steps, more);
    steps := steps + more;
    RunKeepsInv(s, steps, judged);
    more, last := RemovesTheFile(judged, m, n);
    RunsOn(s, steps, judged, more, last);
    NoDeathsOn(steps, more);
    steps := steps + more;
  }

  /** A new attempt can come to hold the lock. */
  ghost predicate Replaceable(s: State, deaths: bool) {
    exists steps, last, m :: Runs(s, steps, last) && (deaths || NoDeaths(steps)) && m !in s.tasks && Holds(last, m)
  }

  lemma {:induction false} ReplaceableAfter(s: State, steps: seq<Step>, mid: State, deaths: bool)
    requires Runs(s, steps, mid) && (deaths || NoDeaths(steps)) && mid.lock.None? && s.tasks.Keys <= mid.tasks.Keys
    ensures Replaceable(s, deaths)
  {
    hide Runs;
    var more, last, m := NewAttemptHolds(mid);
    RunsOn(s, steps, mid, more, last);
    assert m !in s.tasks;
    assert deaths || NoDeaths(steps + more);
  }

  /** A running task has confirmed the death of `n` already. */
  ghost predicate Suspected(s: State, n: nat) {
    exists k :: Alive(s, k) && Suspects(s.tasks[k].pc, n)
  }

  /** The owner is dead, but a running process has its pid, and nobody has looked before that one started. */
  ghost predicate Masked(s: State, n: nat) {
    Gone(s, n) && HasFile(s.lock, OwnerFile(n)) && !ConfirmedDead(s, PidOf(s, n)) && !Suspected(s, n)
  }

  lemma MaskedStays(s: State, step: Step, n: nat)
    requires Inv(s) && Enabled(s, step) && !step.Die? && Masked(s, n)
    ensures Masked(Apply(s, step), n)
  {
    if step.Act? {
      assert TaskFits(s, step.nonce) && Alive(s, step.nonce) && step.nonce != n;
      assert forall k :: k in s.tasks ==> TaskFits(s, k);
      MaskedActs(s, step.nonce, step.aged, n);
      ActsAreOwn(s, step.nonce, step.aged);
      hide ActOf, Inv, TaskFits;
      StillMasked(s, ActOf(s, step.nonce, step.aged), n, step.nonce);
    } else {
      assert forall k :: k in s.tasks ==> TaskFits(s, k);
      hide Inv;
      var m := if step.Begin? || step.StartRenewal? || step.StartRelease? then step.nonce else n;
      StillMasked(s, Apply(s, step), n, m);
    }
  }

  /** Only task `m` may have moved, no process has died, and it neither removed the file nor began to suspect `n`. */
  lemma StillMasked(s: State, t: State, n: nat, m: nat)
    requires Masked(s, n) && HasFile(t.lock, OwnerFile(n)) && n in t.tasks && t.tasks[n].process == s.tasks[n].process
    requires forall p :: p in s.processes ==> p in t.processes && t.processes[p] == s.processes[p]
    requires forall k :: k in t.tasks && k != m ==> k in s.tasks && t.tasks[k] == s.tasks[k]
    requires forall k :: k in s.tasks ==> s.tasks[k].process in s.processes
    requires m in t.tasks && Alive(t, m) ==> !Suspects(t.tasks[m].pc, n)
    ensures Masked(t, n)
  {
    var p :| p in s.processes && s.processes[p].alive && s.processes[p].pid == PidOf(s, n);
    assert t.processes[p] == s.processes[p];
    forall k | Alive(t, k)
      ensures !Suspects(t.tasks[k].pc, n)
    {
      if k != m { assert Alive(s, k); }
    }
  }

  /** An act moves its own task and no other. */
  lemma ActsAreOwn(s: State, m: nat, aged: bool)
    requires m in s.tasks && s.tasks[m].process in s.processes
    ensures var t := ActOf(s, m, aged);
            t.processes == s.processes && exists pc :: t.tasks == s.tasks[m := s.tasks[m].(pc := pc)]
  {
    hide ListOwner, ConfirmedDead, MyOwner;
    match s.tasks[m].pc
    case ListFor(purpose) =>
      var t := List(s, m, purpose);
      assert t == At(s, m, t.tasks[m].pc);
    case ReadFor(purpose, listed) =>
      var t := Read(s, m, purpose, listed);
      assert t == At(s, m, t.tasks[m].pc);
    case _ =>
      hide List, Read;
      var t := ActOf(s, m, aged);
      assert t.tasks == s.tasks[m := s.tasks[m].(pc := t.tasks[m].pc)];
  }

  /** No act of another task removes the file or begins to suspect a masked owner. */
  lemma MaskedActs(s: State, m: nat, aged: bool, n: nat)
    requires Inv(s) && Masked(s, n) && Enabled(s, Act(m, aged)) && m != n && TaskFits(s, m)
             && !Suspects(s.tasks[m].pc, n)
    ensures var t := ActOf(s, m, aged); HasFile(t.lock, OwnerFile(n)) && !Suspects(t.tasks[m].pc, n)
  {
    hide ConfirmedDead;
  }

  lemma {:induction false} NobodyReplacesAMaskedOwner(s: State, steps: seq<Step>, last: State, n: nat, m: nat)
    requires Inv(s) && Runs(s, steps, last) && NoDeaths(steps) && Masked(s, n)
    ensures !Holds(last, m)
    decreases |steps|
  {
    if steps == [] {
      if m in s.tasks { assert TaskFits(s, m); }
    } else {
      assert !steps[0].Die? && NoDeaths(steps[1..]);
      MaskedStays(s, steps[0], n);
      StepKeepsInv(s, steps[0]);
      NobodyReplacesAMaskedOwner(Apply(s, steps[0]), steps[1..], last, n, m);
    }
  }

  /** Every process of `ps` dies. */
  lemma {:induction false} AllDie(s: State, ps: set<nat>) returns (steps: seq<Step>, last: State)
    requires ps <= s.processes.Keys
    ensures Runs(s, steps, last) && last.tasks == s.tasks && last.lock == s.lock
            && last.processes.Keys == s.processes.Keys
    ensures forall p :: p in s.processes ==>
              last.processes[p].pid == s.processes[p].pid
                && (last.processes[p].alive <==> s.processes[p].alive && p !in ps)
    decreases |ps|
  {
    if ps == {} {
      steps, last := [], s;
    } else {
      var p :| p in ps;
      var mid;
      steps, mid := AllDie(s, ps - {p});
      OneMore(s, steps, mid, Die(p));
      steps, last := steps + [Die(p)], Apply(mid, Die(p));
    }
  }

  /** The directory of a dead owner: whatever processes may yet start or die, a new attempt can come to hold the lock if
      and only if the owner did not die in the middle of a renewal. */
  lemma ReplaceableIffNotStuck(s: State, n: nat)
    requires Inv(s) && Gone(s, n) && HasFile(s.lock, OwnerFile(n))
    ensures Replaceable(s, true) <==> NoTemp(s, n)
  {
    hide Runs, Holds;
    if NoTemp(s, n) {
      var steps, dead := AllDie(s, s.processes.Keys);
      RunKeepsInv(s, steps, dead);
      assert Gone(dead, n) && ConfirmedDead(dead, PidOf(dead, n));
      var more, last := ClearedAway(dead, n);
      RunsOn(s, steps, dead, more, last);
      ReplaceableAfter(s, steps + more, last, true);
    } else {
      forall steps, last, m | Runs(s, steps, last)
        ensures !Holds(last, m)
      {
        NobodyHoldsAStuckLock(s, steps, last, n, m);
      }
    }
  }

  /** While no further process dies: if and only if, besides, the death can be confirmed, or has been already. */
  lemma ReplaceableWithoutDeathsIffConfirmable(s: State, n: nat)
    requires Inv(s) && Gone(s, n) && HasFile(s.lock, OwnerFile(n))
    ensures Replaceable(s, false) <==> NoTemp(s, n) && (ConfirmedDead(s, PidOf(s, n)) || Suspected(s, n))
  {
    hide Runs, Holds, ConfirmedDead;
    if !NoTemp(s, n) {
      ReplaceableIffNotStuck(s, n);
    } else if Suspected(s, n) {
      var k :| Alive(s, k) && Suspects(s.tasks[k].pc, n);
      var steps, last := RemovesTheFile(s, k, n);
      ReplaceableAfter(s, steps, last, false);
    } else if ConfirmedDead(s, PidOf(s, n)) {
      var steps, last := ClearedAway(s, n);
      ReplaceableAfter(s, steps, last, false);
    } else {
      forall steps, last, m | Runs(s, steps, last) && NoDeaths(steps)
        ensures !Holds(last, m)
      {
        NobodyReplacesAMaskedOwner(s, steps, last, n, m);
      }
    }
  }

  // ---- what a task does that nobody disturbs ----

  /** The directory of a task that just holds the lock has its owner file and nothing else. */
  lemma HolderIsAlone(s: State, n: nat)
    requires Inv(s) && Alive(s, n) && s.tasks[n].pc == Holding
    ensures s.lock.Some? && s.lock.value.Keys == {OwnerFile(n)} && s.lock.value[OwnerFile(n)].nonce == n
    ensures ListOwner(s.lock, {}) == One(n)
  {
    assert TaskFits(s, n);
    OnlyItsFile(s, n);
  }

  /** Its release, once begun, up to the removal of the directory. */
  lemma WithdrawsItsFile(s: State, n: nat) returns (steps: seq<Step>, last: State)
    requires Alive(s, n) && s.tasks[n].pc == ListFor(Releasing) && s.lock.Some? && s.lock.value.Keys == {OwnerFile(n)}
    requires ListOwner(s.lock, {}) == One(n) && s.lock.value[OwnerFile(n)].nonce == n
    ensures Runs(s, steps, last) && NoDeaths(steps) && OwnSteps(steps, n) && Moved(s, last, n, Finished)
            && last.lock.None?
  {
    hide Runs, NoDeaths, OwnSteps, ListOwner;
    assert s.lock.value - {OwnerFile(n)} == map[];
    steps, last := [], s;
    NoSteps(s);
    steps, last := Acts(s, steps, last, n);
    steps, last := Acts(s, steps, last, n);
    steps, last := Acts(s, steps, last, n);
    steps, last := Acts(s, steps, last, n);
  }

  /** A holder that releases the lock, undisturbed, ends with the directory gone; a new attempt can then take the
      lock. */
  lemma ReleaseFreesTheLock(s: State, n: nat) returns (steps: seq<Step>, last: State)
    requires Inv(s) && Alive(s, n) && s.tasks[n].pc == Holding
    ensures Runs(s, steps, last) && OwnSteps(steps, n) && Moved(s, last, n, Finished) && last.lock.None?
    ensures Replaceable(last, false)
  {
    hide Runs, NoDeaths, OwnSteps, Inv, ListOwner, Replaceable;
    HolderIsAlone(s, n);
    var mid, more;
    steps, mid := Starts(s, n, StartRelease(n));
    more, last := WithdrawsItsFile(mid, n);
    RunsOn(s, steps, mid, more, last);
    OwnStepsOn(steps, more, n);
    steps := steps + more;
    NoSteps(last);
    ReplaceableAfter(last, [], last, false);
  }

  lemma Starts(s: State, n: nat, step: Step) returns (steps: seq<Step>, last: State)
    requires Alive(s, n) && s.tasks[n].pc == Holding && (step == StartRelease(n) || step == StartRenewal(n))
    ensures Runs(s, steps, last) && NoDeaths(steps) && OwnSteps(steps, n) && last == Apply(s, step)
  {
    steps, last := [step], Apply(s, step);
    assert steps[1..] == [];
  }

  /** A renewal up to its new record, which lies beside the old one. */
  lemma WritesItsTemp(s: State, n: nat) returns (steps: seq<Step>, last: State)
    requires Alive(s, n) && s.tasks[n].pc == ListFor(Renewing) && s.lock.Some? && s.lock.value.Keys == {OwnerFile(n)}
    requires s.lock.value[OwnerFile(n)].nonce == n
    ensures Runs(s, steps, last) && NoDeaths(steps) && OwnSteps(steps, n) && Moved(s, last, n, ListFor(Verifying))
    ensures last.lock == Some(map[OwnerFile(n) := s.lock.value[OwnerFile(n)], RenewTemp(n) := MyOwner(s, n)])
  {
    hide Runs, NoDeaths, OwnSteps;
    assert s.lock.value.Keys - {} == {OwnerFile(n)};
    ListOwnerIsExact(s.lock, {}, n);
    hide ListOwner;
    steps, last := [], s;
    NoSteps(s);
    steps, last := Acts(s, steps, last, n);
    steps, last := Acts(s, steps, last, n);
    steps, last := Acts(s, steps, last, n);
    assert last.lock.value == map[OwnerFile(n) := s.lock.value[OwnerFile(n)], RenewTemp(n) := MyOwner(s, n)];
  }

  /** And from there to the rename. */
  lemma RenamesItsTemp(s: State, n: nat, before: Owner, renewed: Owner) returns (steps: seq<Step>, last: State)
    requires Alive(s, n) && s.tasks[n].pc == ListFor(Verifying) && before.nonce == n
    requires s.lock == Some(map[OwnerFile(n) := before, RenewTemp(n) := renewed])
    ensures Runs(s, steps, last) && NoDeaths(steps) && OwnSteps(steps, n) && Moved(s, last, n, Holding)
    ensures last.lock == Some(map[OwnerFile(n) := renewed])
  {
    hide Runs, NoDeaths, OwnSteps;
    assert s.lock.value.Keys - {RenewTemp(n)} == {OwnerFile(n)};
    ListOwnerIsExact(s.lock, {RenewTemp(n)}, n);
    hide ListOwner;
    steps, last := [], s;
    NoSteps(s);
    steps, last := Acts(s, steps, last, n);
    steps, last := Acts(s, steps, last, n);
    assert (s.lock.value - {RenewTemp(n)})[OwnerFile(n) := renewed] == map[OwnerFile(n) := renewed];
    steps, last := Acts(s, steps, last, n);
  }

  /** A holder that renews the lock, undisturbed, holds it again, with the record it would write if it took it now. */
  lemma RenewalRenews(s: State, n: nat) returns (steps: seq<Step>, last: State)
    requires Inv(s) && Alive(s, n) && s.tasks[n].pc == Holding
    ensures Runs(s, steps, last) && OwnSteps(steps, n) && Moved(s, last, n, Holding)
    ensures last.lock == Some(map[OwnerFile(n) := MyOwner(s, n)])
  {
    hide Runs, NoDeaths, OwnSteps, Inv, ListOwner;
    HolderIsAlone(s, n);
    var mid, more, after;
    steps, mid := Starts(s, n, StartRenewal(n));
    more, after := WritesItsTemp(mid, n);
    RunsOn(s, steps, mid, more, after);
    OwnStepsOn(steps, more, n);
    steps := steps + more;
    more, last := RenamesItsTemp(after, n, s.lock.value[OwnerFile(n)], MyOwner(s, n));
    RunsOn(s, steps, after, more, last);
    OwnStepsOn(steps, more, n);
    steps := steps + more;
  }

  lemma OwnStepsOn(xs: seq<Step>, ys: seq<Step>, m: nat)
    requires OwnSteps(xs, m) && OwnSteps(ys, m)
    ensures OwnSteps(xs + ys, m)
  {
  }

  /** An attempt that finds a running holder, undisturbed, ends in vain, and leaves the directory as it found it. */
  lemma AttemptInVain(s: State, n: nat, m: nat) returns (steps: seq<Step>, last: State)
    requires Inv(s) && Holds(s, n) && Alive(s, m) && m != n && s.tasks[m].pc == Starting
    ensures Runs(s, steps, last) && OwnSteps(steps, m) && Moved(s, last, m, Finished) && last.lock == s.lock
  {
    hide Runs, NoDeaths, OwnSteps;
    assert TaskFits(s, n);
    assert OwnerFile(n) in s.lock.value;
    steps, last := KnocksInVain(s, m);
    var listing := ListOwner(last.lock, {});
    assert last.lock.value.Keys - {} == last.lock.value.Keys;
    steps, last := Acts(s, steps, last, m);
    if listing.One? {
      ListOwnerIsExact(s.lock, {}, listing.nonce);
      assert OwnerFile(n) in {OwnerFile(listing.nonce)};
      steps, last := Acts(s, steps, last, m);
      assert s.processes[s.tasks[n].process].alive && !ConfirmedDead(last, s.lock.value[OwnerFile(n)].pid);
      steps, last := Acts(s, steps, last, m);
    }
  }

  // ---- leases ----

  /** No record promises more than a lease from now. */
  ghost predicate Timely(s: State) {
    && (s.lock.Some? ==> forall f :: f in s.lock.value ==> s.lock.value[f].expires <= s.clock + LEASE)
    && forall n :: n in s.candidates && s.candidates[n].Some? ==> s.candidates[n].value.expires <= s.clock + LEASE
  }

  lemma StepKeepsTimely(s: State, step: Step)
    requires Timely(s) && Enabled(s, step)
    ensures Timely(Apply(s, step))
  {
    hide ListOwner, ConfirmedDead;
  }

  lemma {:induction false} RunKeepsTimely(s: State, steps: seq<Step>, last: State)
    requires Timely(s) && Runs(s, steps, last)
    ensures Timely(last)
    decreases |steps|
  {
    if steps != [] {
      StepKeepsTimely(s, steps[0]);
      RunKeepsTimely(Apply(s, steps[0]), steps[1..], last);
    }
  }

  /** In every run a renewal that nobody disturbs leaves the owner's record alone in the directory, expiring no
      earlier. */
  lemma RenewalExtendsTheLease(s: State, steps: seq<Step>, mid: State, n: nat) returns (more: seq<Step>, last: State)
    requires Initial(s) && Runs(s, steps, mid) && Alive(mid, n) && mid.tasks[n].pc == Holding
    ensures Runs(mid, more, last) && OwnSteps(more, n) && Moved(mid, last, n, Holding)
    ensures HasFile(mid.lock, OwnerFile(n)) && last.lock.Some? && last.lock.value.Keys == {OwnerFile(n)}
    ensures mid.lock.value[OwnerFile(n)].expires <= last.lock.value[OwnerFile(n)].expires == mid.clock + LEASE
  {
    RunKeepsInv(s, steps, mid);
    RunKeepsTimely(s, steps, mid);
    hide Runs, OwnSteps, Inv;
    HolderIsAlone(mid, n);
    more, last := RenewalRenews(mid, n);
  }

  /** The record of `n` is there with a lease until `e` at least, and nobody has seen an earlier end of it. */
  ghost predicate Guarded(s: State, n: nat, e: nat) {
    && HasFile(s.lock, OwnerFile(n)) && s.lock.value[OwnerFile(n)].expires >= e
    && forall k :: k in s.tasks ==> Unsuspecting(s.tasks[k].pc, n, e)
  }

  predicate Unsuspecting(pc: Pc, n: nat, e: nat) {
    match pc
    case Judge(o) => o.nonce == n ==> o.expires >= e
    case ListFor(Rechecking(m)) => m != n
    case ReadFor(Rechecking(m), _) => m != n
    case UnlinkOf(m) => m != n
    case _ => true
  }

  lemma StepHonoursTheLease(s: State, step: Step, n: nat, e: nat)
    requires Inv(s) && Enabled(s, step) && Guarded(s, n, e) && s.clock < e && !(step.Act? && step.nonce == n)
    requires !(step in {StartRenewal(n), StartRelease(n)})
    ensures Guarded(Apply(s, step), n, e)
  {
    hide ListOwner, ConfirmedDead;
    if step.Act? {
      assert TaskFits(s, step.nonce) && Unsuspecting(s.tasks[step.nonce].pc, n, e);
    }
  }

  /** An owner's record stays until its lease has run out, whether or not the owner is still running: no attempt that
      saw this lease, or sees it later, takes it away. */
  lemma {:induction false} LeaseIsHonoured(s: State, steps: seq<Step>, last: State, n: nat, e: nat)
    requires Inv(s) && Runs(s, steps, last) && Guarded(s, n, e) && last.clock < e
    requires forall step <- steps :: !(step.Act? && step.nonce == n) && !(step in {StartRenewal(n), StartRelease(n)})
    ensures Guarded(last, n, e) && last.clock >= s.clock
    decreases |steps|
  {
    if steps != [] {
      ClockGoesOn(Apply(s, steps[0]), steps[1..], last);
      StepHonoursTheLease(s, steps[0], n, e);
      StepKeepsInv(s, steps[0]);
      LeaseIsHonoured(Apply(s, steps[0]), steps[1..], last, n, e);
    }
  }

  lemma {:induction false} ClockGoesOn(s: State, steps: seq<Step>, last: State)
    requires Runs(s, steps, last)
    ensures last.clock >= s.clock
    decreases |steps|
  {
    hide ActOf;
    if steps != [] {
      ActsTakeNoTime(s, steps[0]);
      ClockGoesOn(Apply(s, steps[0]), steps[1..], last);
    }
  }

  lemma ActsTakeNoTime(s: State, step: Step)
    requires Enabled(s, step)
    ensures Apply(s, step).clock == s.clock + if step.Wait? then step.milliseconds else 0
  {
    hide ListOwner, ConfirmedDead;
  }

  /** Nobody is about to remove the lock directory. */
  ghost predicate NobodyRemoves(s: State) {
    forall k :: k in s.tasks ==> s.tasks[k].pc !in {RemoveEmpty, RemoveOwn}
  }

  /** An empty lock directory, which an attempt may be about to fill, is only removed when it is older than a lease. */
  lemma YoungDirectoryStays(s: State, step: Step)
    requires Enabled(s, step) && s.lock == Some(map[]) && NobodyRemoves(s) && !(step.Act? && step.aged)
    ensures Apply(s, step).lock.Some? && (Apply(s, step).lock == Some(map[]) ==> NobodyRemoves(Apply(s, step)))
  {
    hide ListOwner, ConfirmedDead;
    if step.Act? {
      assert s.tasks[step.nonce].pc !in {RemoveEmpty, RemoveOwn};
    }
  }

  /** The stuck lock does arise: a process starts, takes the lock, begins to renew it, and dies before the rename. */
  lemma StuckIsReachable(s: State, pid: nat) returns (steps: seq<Step>, last: State, n: nat)
    requires Initial(s)
    ensures Runs(s, steps, last) && Stuck(last, n)
  {
    hide Runs, NoDeaths, OwnSteps;
    var more, mid;
    steps, mid, n := Arrives(s, pid);
    more, last := TakesTheLock(mid, n);
    RunsOn(s, steps, mid, more, last);
    steps := steps + more;
    OneMore(s, steps, last, StartRenewal(n));
    steps, mid := steps + [StartRenewal(n)], Apply(last, StartRenewal(n));
    more, last := WritesItsTemp(mid, n);
    RunsOn(s, steps, mid, more, last);
    steps := steps + more;
    var p := last.tasks[n].process;
    OneMore(s, steps, last, Die(p));
    steps, last := steps + [Die(p)], Apply(last, Die(p));
  }
}
