/** Any number of interleaved publications in one directory, each of which can fail, be interrupted or be
    killed at every operation. */
module PublicationRuns {
  import opened Sequences
  import opened Publication

  /** `creator` is none for files that were there before. */
  datatype File = File(creator: Option<nat>, data: Bytes)

  /** Where an invocation stands; the numbers count bytes written so far. */
  datatype Phase =
    | Locking
    | Locked                 // lock file created, the block it guards not yet entered
    | CheckingArchive
    | CheckingSidecar
    | CreatingArchive
    | OpenedArchive          // created, but the copy has not noted that yet
    | WritingArchive(n: nat)
    | CopiedArchive          // copied, but the publication has not noted that yet
    | CreatingSidecar
    | OpenedSidecar
    | WritingSidecar(n: nat)
    | CopiedSidecar
    | Noted                  // both copied and noted
    | RemovingSidecar(n: nat)  // the failed copy removes its own file
    | UnwindingSidecar         // the publication removes the sidecar it noted, then the archive
    | RemovingArchive(n: nat)
    | Unlocking(published: bool)
    | Ended(published: bool)

  /** One invocation: what it publishes, whether it goes through the lock, and what it has given up. */
  datatype Publisher = Publisher(target: nat, archive: Bytes, sidecar: Bytes, usesLock: bool, phase: Phase, left: Left)

  /** The lock file of a target names the invocation that created it. */
  datatype State = State(files: map<Path, File>, lock: map<nat, nat>, publishers: seq<Publisher>)

  /** The next operation succeeds, moving some bytes if it is a write; or it fails or is interrupted; or
      the process is killed there. */
  datatype Course = Proceeds(bytes: nat) | Fails | Killed

  datatype Event = Event(p: nat, course: Course)

  /** The next phase of an invocation and the files afterwards; `held` says its lock is taken. */
  function Proceed(me: Publisher, files: map<Path, File>, held: bool, p: nat, bytes: nat)
    : Option<(Phase, map<Path, File>)>
  {
    var archive, sidecar := Archive(me.target), Sidecar(me.target);
    match me.phase
    case Locking => Some((if !me.usesLock then CheckingArchive else if held then Ended(false) else Locked, files))
    case Locked => Some((CheckingArchive, files))
    case CheckingArchive => Some((if archive in files then Unlocking(false) else CheckingSidecar, files))
    case CheckingSidecar => Some((if sidecar in files then Unlocking(false) else CreatingArchive, files))
    case CreatingArchive =>
      if archive in files then Some((Unlocking(false), files))
      else Some((OpenedArchive, files[archive := File(Some(p), [])]))
    case OpenedArchive => Some((WritingArchive(0), files))
    case WritingArchive(n) =>
      if n == |me.archive| then Some((CopiedArchive, files))
      else if 0 < bytes && n + bytes <= |me.archive|
      then Some((WritingArchive(n + bytes), files[archive := File(Some(p), me.archive[..n + bytes])]))
      else None
    case CopiedArchive => Some((CreatingSidecar, files))
    case CreatingSidecar =>
      if sidecar in files then Some((RemovingArchive(|me.archive|), files))
      else Some((OpenedSidecar, files[sidecar := File(Some(p), [])]))
    case OpenedSidecar => Some((WritingSidecar(0), files))
    case WritingSidecar(n) =>
      if n == |me.sidecar| then Some((CopiedSidecar, files))
      else if 0 < bytes && n + bytes <= |me.sidecar|
      then Some((WritingSidecar(n + bytes), files[sidecar := File(Some(p), me.sidecar[..n + bytes])]))
      else None
    case CopiedSidecar => Some((Noted, files))
    case Noted => Some((Unlocking(true), files))
    case RemovingSidecar(_) => Some((RemovingArchive(|me.archive|), files - {sidecar}))
    case UnwindingSidecar => Some((RemovingArchive(|me.archive|), files - {sidecar}))
    case RemovingArchive(_) => Some((Unlocking(false), files - {archive}))
    case Unlocking(published) => Some((Ended(published), files))
    case Ended(_) => None
  }

  /** Where an invocation goes on when its operation fails or is interrupted. */
  function Unwound(me: Publisher): Option<Phase> {
    match me.phase
    case Locking => Some(Ended(false))
    case Locked => Some(Ended(false))
    case WritingArchive(n) => Some(RemovingArchive(n))
    case CreatingSidecar => Some(RemovingArchive(|me.archive|))
    case OpenedSidecar => Some(RemovingArchive(|me.archive|))
    case WritingSidecar(n) => Some(RemovingSidecar(n))
    case CopiedSidecar => Some(RemovingArchive(|me.archive|))
    case Noted => Some(UnwindingSidecar)
    case RemovingSidecar(_) => Some(RemovingArchive(|me.archive|))
    case Unlocking(published) => Some(Ended(published))
    case Ended(_) => None
    case _ => Some(Unlocking(false))
  }

  /** The files that are this invocation's own at this point, by the bytes they hold. */
  function Held(me: Publisher): Left {
    var a, s := Some(|me.archive|), Some(|me.sidecar|);
    match me.phase
    case OpenedArchive => Left(Some(0), None)
    case WritingArchive(n) => Left(Some(n), None)
    case CopiedArchive => Left(a, None)
    case CreatingSidecar => Left(a, None)
    case OpenedSidecar => Left(a, Some(0))
    case WritingSidecar(n) => Left(a, Some(n))
    case CopiedSidecar => Left(a, s)
    case Noted => Left(a, s)
    case RemovingSidecar(n) => Left(a, Some(n))
    case UnwindingSidecar => Left(a, s)
    case RemovingArchive(n) => Left(Some(n), None)
    case Unlocking(published) => if published then Left(a, s) else NOTHING
    case Ended(published) => if published then Left(a, s) else NOTHING
    case _ => NOTHING
  }

  /** What an invocation gives up for good at this operation: everything, when it is killed; the file
      just created or copied, when an interrupt comes before that is noted; the file whose removal
      fails, and with a noted sidecar the archive too, because the rollback ends there. */
  function Abandoned(me: Publisher, course: Course): Left {
    match course
    case Proceeds(_) => NOTHING
    case Killed => if me.phase.Unlocking? then NOTHING else Held(me)
    case Fails =>
      match me.phase
      case OpenedArchive => Held(me)
      case CopiedArchive => Held(me)
      case OpenedSidecar => Held(me).(archive := None)
      case CopiedSidecar => Held(me).(archive := None)
      case RemovingSidecar(_) => Held(me).(archive := None)
      case UnwindingSidecar => Held(me)
      case RemovingArchive(_) => Held(me)
      case _ => NOTHING
  }

  function Merge(a: Left, b: Left): Left {
    Left(if b.archive.Some? then b.archive else a.archive, if b.sidecar.Some? then b.sidecar else a.sidecar)
  }

  function Act(me: Publisher, files: map<Path, File>, held: bool, e: Event): Option<(Phase, map<Path, File>)> {
    match e.course
    case Proceeds(bytes) => Proceed(me, files, held, e.p, bytes)
    case Fails => (match Unwound(me) case Some(phase) => Some((phase, files)) case None => None)
    case Killed =>
      if me.phase.Ended? then None
      else Some((Ended(me.phase.Unlocking? && me.phase.published), files))
  }

  function Next(me: Publisher, phase: Phase, course: Course): Publisher {
    me.(phase := phase, left := Merge(me.left, Abandoned(me, course)))
  }

  /** The lock file is created on entry and unlinked on a good way out, by users of the lock only. */
  function LockAfter(lock: map<nat, nat>, me: Publisher, e: Event, phase: Phase): map<nat, nat> {
    if phase.Locked? then lock[me.target := e.p]
    else if me.usesLock && me.phase.Unlocking? && e.course.Proceeds? then lock - {me.target}
    else lock
  }

  function Step(s: State, e: Event): Option<State> {
    if e.p >= |s.publishers| then None
    else
      var me := s.publishers[e.p];
      match Act(me, s.files, me.target in s.lock, e)
      case None => None
      case Some((phase, files)) =>
        Some(State(files, LockAfter(s.lock, me, e, phase), s.publishers[e.p := Next(me, phase, e.course)]))
  }

  function Run(s: State, events: seq<Event>): Option<State>
    decreases |events|
  {
    if events == [] then Some(s)
    else match Step(s, events[0]) {
      case None => None
      case Some(next) => Run(next, events[1..])
    }
  }

  /** Any files and lock files, and any invocations that have not started. */
  predicate Initial(s: State) {
    && (forall path | path in s.files :: s.files[path].creator.None?)
    && (forall p | 0 <= p < |s.publishers| :: s.publishers[p].phase.Locking? && s.publishers[p].left == NOTHING)
  }

  // ---------------------------------------------------------------- ownership

  function Prefix(data: Bytes, n: Option<nat>): Option<Bytes> {
    if n.Some? && n.value <= |data| then Some(data[..n.value]) else None
  }

  /** An invocation's own files: those it works on and those it has given up. */
  function Own(me: Publisher): Left { Merge(me.left, Held(me)) }

  function Owned(me: Publisher, path: Path): Option<Bytes> {
    if path == Archive(me.target) then Prefix(me.archive, Own(me).archive)
    else if path == Sidecar(me.target) then Prefix(me.sidecar, Own(me).sidecar)
    else None
  }

  predicate Within(me: Publisher, left: Left) {
    && (left.archive.Some? ==> left.archive.value <= |me.archive|)
    && (left.sidecar.Some? ==> left.sidecar.value <= |me.sidecar|)
  }

  /** A given-up archive is the last thing of an invocation; a given-up sidecar leaves only the archive
      to be removed. */
  predicate PhaseKept(me: Publisher) {
    && Within(me, Held(me)) && Within(me, me.left)
    && (me.left.archive.Some? ==> me.phase == Unlocking(false) || me.phase == Ended(false))
    && (me.left.sidecar.Some? ==> me.phase == Unlocking(false) || me.phase == Ended(false) || me.phase.RemovingArchive?)
  }

  /** A file is either untouched since the start, or it is what its one creator has made of it. */
  ghost predicate FileKept(start: map<Path, File>, s: State, path: Path) {
    && (path in start ==> path in s.files && s.files[path] == start[path])
    && (path in s.files && path !in start ==>
          s.files[path].creator.Some? && s.files[path].creator.value < |s.publishers|
          && Owned(s.publishers[s.files[path].creator.value], path) == Some(s.files[path].data))
  }

  ghost predicate OwnershipKept(start: map<Path, File>, s: State, p: nat, path: Path) {
    p < |s.publishers| && PhaseKept(s.publishers[p])
    && (Owned(s.publishers[p], path).Some? ==>
          path !in start && path in s.files && s.files[path] == File(Some(p), Owned(s.publishers[p], path).value))
  }

  ghost predicate Kept(start: map<Path, File>, s: State) {
    && (forall path :: FileKept(start, s, path))
    && (forall p, path | 0 <= p < |s.publishers| :: OwnershipKept(start, s, p, path))
  }

  /** What one step can do at one path: nothing, or create, write or remove its own file there. */
  ghost predicate Effect(before: map<Path, File>, after: map<Path, File>, p: nat, path: Path,
                         was: Option<Bytes>, now: Option<Bytes>) {
    || (now == was && (path in after <==> path in before) && (path in before ==> after[path] == before[path]))
    || (was.None? && path !in before && now.Some? && path in after && after[path] == File(Some(p), now.value))
    || (was.Some? && now.Some? && path in after && after[path] == File(Some(p), now.value))
    || (was.Some? && now.None? && path !in after)
  }

  ghost predicate ActsOn(me: Publisher, files: map<Path, File>, held: bool, e: Event, path: Path)
    requires Act(me, files, held, e).Some?
  {
    var (phase, after) := Act(me, files, held, e).value;
    var then_ := Next(me, phase, e.course);
    PhaseKept(then_) && Effect(files, after, e.p, path, Owned(me, path), Owned(then_, path))
  }

  /** Failing, being interrupted or killed changes no file; what was owned is kept or given up. */
  lemma FailingKeepsOwn(me: Publisher)
    requires Unwound(me).Some? && PhaseKept(me)
    ensures Own(Next(me, Unwound(me).value, Fails)) == Own(me)
  {
  }

  lemma FailingKeepsPhase(me: Publisher)
    requires Unwound(me).Some? && PhaseKept(me)
    ensures PhaseKept(Next(me, Unwound(me).value, Fails))
  {
  }

  lemma DyingKeepsOwn(me: Publisher)
    requires !me.phase.Ended? && PhaseKept(me)
    ensures var then_ := Next(me, Ended(me.phase.Unlocking? && me.phase.published), Killed);
            PhaseKept(then_) && Own(then_) == Own(me)
  {
  }

  lemma GivingUpKeepsOwn(me: Publisher, files: map<Path, File>, held: bool, e: Event)
    requires Act(me, files, held, e).Some? && PhaseKept(me) && !e.course.Proceeds?
    ensures var (phase, after) := Act(me, files, held, e).value;
            var then_ := Next(me, phase, e.course);
            after == files && PhaseKept(then_) && Own(then_) == Own(me)
  {
    hide Proceed, Unwound, Own, PhaseKept, Next;
    if e.course.Fails? {
      FailingKeepsOwn(me);
      FailingKeepsPhase(me);
    } else {
      DyingKeepsOwn(me);
    }
  }

  predicate ChangesFiles(phase: Phase) {
    || phase.CreatingArchive? || phase.WritingArchive? || phase.RemovingArchive?
    || phase.CreatingSidecar? || phase.WritingSidecar? || phase.RemovingSidecar? || phase.UnwindingSidecar?
  }

  /** An operation that neither creates, writes nor removes a file. */
  lemma QuietStep(me: Publisher, files: map<Path, File>, held: bool, e: Event)
    requires Act(me, files, held, e).Some? && PhaseKept(me) && e.course.Proceeds?
    requires !ChangesFiles(me.phase)
    ensures var (phase, after) := Act(me, files, held, e).value;
            var then_ := Next(me, phase, e.course);
            after == files && PhaseKept(then_) && Own(then_) == Own(me)
  {
    hide Unwound;
  }

  lemma CreateArchiveStep(me: Publisher, files: map<Path, File>, held: bool, e: Event, path: Path)
    requires Act(me, files, held, e).Some? && PhaseKept(me) && e.course.Proceeds? && me.phase.CreatingArchive?
    ensures ActsOn(me, files, held, e, path)
  {
    hide Unwound;
  }

  lemma WriteArchiveStep(me: Publisher, files: map<Path, File>, held: bool, e: Event, path: Path)
    requires Act(me, files, held, e).Some? && PhaseKept(me) && e.course.Proceeds? && me.phase.WritingArchive?
    ensures ActsOn(me, files, held, e, path)
  {
    hide Unwound;
    assert me.archive[..|me.archive|] == me.archive;
  }

  lemma RemoveArchiveStep(me: Publisher, files: map<Path, File>, held: bool, e: Event, path: Path)
    requires Act(me, files, held, e).Some? && PhaseKept(me) && e.course.Proceeds? && me.phase.RemovingArchive?
    ensures ActsOn(me, files, held, e, path)
  {
    hide Unwound;
  }

  lemma CreateSidecarStep(me: Publisher, files: map<Path, File>, held: bool, e: Event, path: Path)
    requires Act(me, files, held, e).Some? && PhaseKept(me) && e.course.Proceeds? && me.phase.CreatingSidecar?
    ensures ActsOn(me, files, held, e, path)
  {
    hide Unwound;
  }

  lemma WriteSidecarStep(me: Publisher, files: map<Path, File>, held: bool, e: Event, path: Path)
    requires Act(me, files, held, e).Some? && PhaseKept(me) && e.course.Proceeds? && me.phase.WritingSidecar?
    ensures ActsOn(me, files, held, e, path)
  {
    hide Unwound;
    assert me.sidecar[..|me.sidecar|] == me.sidecar;
  }

  lemma RemoveSidecarStep(me: Publisher, files: map<Path, File>, held: bool, e: Event, path: Path)
    requires Act(me, files, held, e).Some? && PhaseKept(me) && e.course.Proceeds?
    requires me.phase.RemovingSidecar? || me.phase.UnwindingSidecar?
    ensures ActsOn(me, files, held, e, path)
  {
    hide Unwound;
  }

  lemma UnchangedActs(me: Publisher, files: map<Path, File>, held: bool, e: Event, path: Path)
    requires Act(me, files, held, e).Some?
    requires var (phase, after) := Act(me, files, held, e).value;
             var then_ := Next(me, phase, e.course);
             after == files && PhaseKept(then_) && Own(then_) == Own(me)
    ensures ActsOn(me, files, held, e, path)
  {
    hide Act, Own, PhaseKept;
  }

  lemma ActEffect(me: Publisher, files: map<Path, File>, held: bool, e: Event, path: Path)
    requires Act(me, files, held, e).Some? && PhaseKept(me)
    ensures ActsOn(me, files, held, e, path)
  {
    hide Act, ActsOn, PhaseKept, Own, Next;
    if !e.course.Proceeds? {
      GivingUpKeepsOwn(me, files, held, e);
      UnchangedActs(me, files, held, e, path);
    } else {
      match me.phase
      case CreatingArchive => CreateArchiveStep(me, files, held, e, path);
      case WritingArchive(_) => WriteArchiveStep(me, files, held, e, path);
      case RemovingArchive(_) => RemoveArchiveStep(me, files, held, e, path);
      case CreatingSidecar => CreateSidecarStep(me, files, held, e, path);
      case WritingSidecar(_) => WriteSidecarStep(me, files, held, e, path);
      case RemovingSidecar(_) => RemoveSidecarStep(me, files, held, e, path);
      case UnwindingSidecar => RemoveSidecarStep(me, files, held, e, path);
      case _ =>
        QuietStep(me, files, held, e);
        UnchangedActs(me, files, held, e, path);
    }
  }

  lemma StepEffect(s: State, e: Event, path: Path)
    requires Step(s, e).Some? && PhaseKept(s.publishers[e.p])
    ensures var t := Step(s, e).value;
            && |t.publishers| == |s.publishers| && PhaseKept(t.publishers[e.p])
            && (forall q | 0 <= q < |s.publishers| && q != e.p :: t.publishers[q] == s.publishers[q])
            && Effect(s.files, t.files, e.p, path, Owned(s.publishers[e.p], path), Owned(t.publishers[e.p], path))
  {
    hide Act, Owned, Effect, PhaseKept, Next;
    var me := s.publishers[e.p];
    ActEffect(me, s.files, me.target in s.lock, e, path);
  }

  lemma StepHasPublisher(s: State, e: Event)
    requires Step(s, e).Some?
    ensures e.p < |s.publishers| && |Step(s, e).value.publishers| == |s.publishers|
  {
  }

  lemma FileKeptByStep(start: map<Path, File>, s: State, e: Event, path: Path)
    requires Kept(start, s) && Step(s, e).Some?
    ensures FileKept(start, Step(s, e).value, path)
  {
    hide Step, Owned, PhaseKept;
    assert FileKept(start, s, path);
    assert OwnershipKept(start, s, e.p, path) by { StepHasPublisher(s, e); }
    StepEffect(s, e, path);
  }

  lemma OwnershipKeptByStep(start: map<Path, File>, s: State, e: Event, p: nat, path: Path)
    requires Kept(start, s) && Step(s, e).Some? && p < |s.publishers|
    ensures OwnershipKept(start, Step(s, e).value, p, path)
  {
    hide Step, Owned, PhaseKept;
    assert FileKept(start, s, path);
    assert OwnershipKept(start, s, p, path);
    assert OwnershipKept(start, s, e.p, path) by { StepHasPublisher(s, e); }
    StepEffect(s, e, path);
  }

  lemma KeptByStep(start: map<Path, File>, s: State, e: Event)
    requires Kept(start, s) && Step(s, e).Some?
    ensures Kept(start, Step(s, e).value)
  {
    hide Step, FileKept, OwnershipKept;
    StepHasPublisher(s, e);
    forall path ensures FileKept(start, Step(s, e).value, path) { FileKeptByStep(start, s, e, path); }
    forall p, path | 0 <= p < |s.publishers| ensures OwnershipKept(start, Step(s, e).value, p, path) {
      OwnershipKeptByStep(start, s, e, p, path);
    }
  }

  lemma {:induction false} KeptByRun(start: map<Path, File>, s: State, events: seq<Event>)
    requires Kept(start, s) && Run(s, events).Some?
    ensures Kept(start, Run(s, events).value)
    decreases |events|
  {
    hide Step, Kept;
    if events != [] {
      KeptByStep(start, s, events[0]);
      KeptByRun(start, Step(s, events[0]).value, events[1..]);
    }
  }

  lemma KeptReachable(s: State, events: seq<Event>)
    requires Initial(s) && Run(s, events).Some?
    ensures Kept(s.files, Run(s, events).value)
  {
    hide Run;
    KeptByRun(s.files, s, events);
  }

  /** In every interleaving of any invocations, with failures, interrupts and kills anywhere and with or
      without the lock, files that were there before are never changed or removed. */
  lemma ExistingEvidenceIsUntouched(s: State, events: seq<Event>, path: Path)
    requires Initial(s) && Run(s, events).Some? && path in s.files
    ensures var t := Run(s, events).value; path in t.files && t.files[path] == s.files[path]
  {
    hide Run;
    KeptReachable(s, events);
    assert FileKept(s.files, Run(s, events).value, path);
  }

  /** A file disappears only by a step of the invocation that created it. */
  lemma OnlyTheCreatorRemoves(s: State, before: seq<Event>, e: Event, path: Path)
    requires Initial(s) && Run(s, before).Some? && Step(Run(s, before).value, e).Some?
    requires path in Run(s, before).value.files && path !in Step(Run(s, before).value, e).value.files
    ensures Run(s, before).value.files[path].creator == Some(e.p)
  {
    hide Run, Step, Owned, PhaseKept;
    KeptReachable(s, before);
    var m := Run(s, before).value;
    assert OwnershipKept(s.files, m, e.p, path) by { StepHasPublisher(m, e); }
    StepEffect(m, e, path);
  }

  // ---------------------------------------------------------------- occupied targets

  /** An invocation that has got past its checks found neither file there at the start. */
  predicate FoundAbsent(start: map<Path, File>, me: Publisher) {
    && (me.phase.CheckingSidecar? ==> Archive(me.target) !in start)
    && (me.phase.CreatingArchive? || Own(me) != NOTHING ==>
          Archive(me.target) !in start && Sidecar(me.target) !in start)
  }

  lemma FoundAbsentByAct(start: map<Path, File>, me: Publisher, files: map<Path, File>, held: bool, e: Event)
    requires Act(me, files, held, e).Some? && PhaseKept(me) && FoundAbsent(start, me)
    requires forall path | path in start :: path in files
    ensures FoundAbsent(start, Next(me, Act(me, files, held, e).value.0, e.course))
  {
    if e.course.Proceeds? {
      hide Unwound;
    } else {
      GivingUpKeepsOwn(me, files, held, e);
      hide Own, Next;
      NoReturnToChecks(me, files, held, e);
    }
  }

  lemma NoReturnToChecks(me: Publisher, files: map<Path, File>, held: bool, e: Event)
    requires Act(me, files, held, e).Some? && !e.course.Proceeds?
    ensures var then_ := Next(me, Act(me, files, held, e).value.0, e.course);
            then_.target == me.target && !then_.phase.CheckingSidecar? && !then_.phase.CreatingArchive?
  {
    hide Proceed;
  }

  ghost predicate TargetsKept(start: map<Path, File>, s: State) {
    Kept(start, s) && forall p | 0 <= p < |s.publishers| :: FoundAbsent(start, s.publishers[p])
  }

  lemma TargetsKeptByStep(start: map<Path, File>, s: State, e: Event)
    requires TargetsKept(start, s) && Step(s, e).Some?
    ensures TargetsKept(start, Step(s, e).value)
  {
    hide Act, FoundAbsent, Owned, Next;
    KeptByStep(start, s, e);
    var me := s.publishers[e.p];
    forall path | path in start ensures path in s.files { assert FileKept(start, s, path); }
    assert OwnershipKept(start, s, e.p, Archive(me.target));
    FoundAbsentByAct(start, me, s.files, me.target in s.lock, e);
    hide Kept;
  }

  lemma {:induction false} TargetsKeptByRun(start: map<Path, File>, s: State, events: seq<Event>)
    requires TargetsKept(start, s) && Run(s, events).Some?
    ensures TargetsKept(start, Run(s, events).value)
    decreases |events|
  {
    hide Step, TargetsKept;
    if events != [] {
      TargetsKeptByStep(start, s, events[0]);
      TargetsKeptByRun(start, Step(s, events[0]).value, events[1..]);
    }
  }

  lemma TargetsReachable(s: State, events: seq<Event>)
    requires Initial(s) && Run(s, events).Some?
    ensures TargetsKept(s.files, Run(s, events).value)
  {
    hide Run;
    TargetsKeptByRun(s.files, s, events);
  }

  lemma MakerFoundAbsent(start: map<Path, File>, t: State, path: Path)
    requires TargetsKept(start, t) && path in t.files && path !in start
    ensures Archive(path.target) !in start && Sidecar(path.target) !in start
  {
    assert FileKept(start, t, path);
    assert FoundAbsent(start, t.publishers[t.files[path].creator.value]);
  }

  /** Where either file of a pair existed, nothing is ever added to the pair. */
  lemma OccupiedPairIsUntouched(s: State, events: seq<Event>, target: nat, path: Path)
    requires Initial(s) && Run(s, events).Some? && (Archive(target) in s.files || Sidecar(target) in s.files)
    requires path == Archive(target) || path == Sidecar(target)
    ensures path in Run(s, events).value.files <==> path in s.files
  {
    hide Run;
    TargetsReachable(s, events);
    var t := Run(s, events).value;
    assert FileKept(s.files, t, path);
    hide Kept, FileKept;
    if path in t.files && path !in s.files {
      MakerFoundAbsent(s.files, t, path);
    }
  }

  // ---------------------------------------------------------------- all or nothing

  /** What an invocation gives up over a run, collected from the operations at which that happens. */
  function GivenUp(s: State, events: seq<Event>, p: nat): Left
    decreases |events|
  {
    if events == [] || Step(s, events[0]).None? then NOTHING
    else
      var now := if events[0].p == p then Abandoned(s.publishers[p], events[0].course) else NOTHING;
      Merge(now, GivenUp(Step(s, events[0]).value, events[1..], p))
  }

  lemma {:induction false} LeftIsGivenUp(s: State, events: seq<Event>, p: nat)
    requires Run(s, events).Some? && p < |s.publishers|
    ensures var t := Run(s, events).value;
            p < |t.publishers| && t.publishers[p].left == Merge(s.publishers[p].left, GivenUp(s, events, p))
    decreases |events|
  {
    hide Abandoned, Act;
    if events != [] {
      LeftIsGivenUp(Step(s, events[0]).value, events[1..], p);
    }
  }

  predicate Quiescent(s: State) {
    forall p | 0 <= p < |s.publishers| :: s.publishers[p].phase.Ended?
  }

  /** Both files of the pair are absent, or both are there whole and made by one invocation. */
  predicate AllOrNothing(s: State, target: nat) {
    var archive, sidecar := Archive(target), Sidecar(target);
    || (archive !in s.files && sidecar !in s.files)
    || (archive in s.files && sidecar in s.files &&
        exists p :: 0 <= p < |s.publishers| && IsPairOf(s, p, target))
  }

  predicate IsPairOf(s: State, p: nat, target: nat)
    requires p < |s.publishers| && Archive(target) in s.files && Sidecar(target) in s.files
  {
    && s.publishers[p].target == target
    && s.files[Archive(target)] == File(Some(p), s.publishers[p].archive)
    && s.files[Sidecar(target)] == File(Some(p), s.publishers[p].sidecar)
  }

  /** An invocation gives up nothing, or the whole pair. */
  predicate Harmless(me: Publisher, left: Left) {
    left == NOTHING || left == Left(Some(|me.archive|), Some(|me.sidecar|))
  }

  /** What an ended invocation owns is the published pair or what it gave up. */
  lemma OwnAtEnd(me: Publisher)
    requires me.phase.Ended? && PhaseKept(me)
    ensures Own(me) == if me.phase.published then Left(Some(|me.archive|), Some(|me.sidecar|)) else me.left
    ensures me.phase.published ==> me.left == NOTHING
  {
  }

  lemma OwnedAtEnd(start: map<Path, File>, t: State, p: nat)
    requires Kept(start, t) && p < |t.publishers| && t.publishers[p].phase.Ended?
    ensures var me := t.publishers[p];
            var archive, sidecar := Archive(me.target), Sidecar(me.target);
            && Within(me, Own(me)) && PhaseKept(me)
            && (Own(me).archive.Some? ==>
                  archive in t.files && t.files[archive] == File(Some(p), me.archive[..Own(me).archive.value]))
            && (Own(me).sidecar.Some? ==>
                  sidecar in t.files && t.files[sidecar] == File(Some(p), me.sidecar[..Own(me).sidecar.value]))
  {
    var me := t.publishers[p];
    assert OwnershipKept(start, t, p, Archive(me.target));
    assert OwnershipKept(start, t, p, Sidecar(me.target));
    hide Kept;
    OwnAtEnd(me);
  }

  /** Whoever made a file of the pair and gave up nothing less than the whole pair made both. */
  lemma MakerMadeBoth(start: map<Path, File>, t: State, path: Path)
    requires Kept(start, t) && Quiescent(t) && path in t.files && path !in start
    requires forall p | 0 <= p < |t.publishers| && t.publishers[p].target == path.target ::
             Harmless(t.publishers[p], t.publishers[p].left)
    ensures AllOrNothing(t, path.target)
  {
    assert FileKept(start, t, path);
    var p := t.files[path].creator.value;
    var me := t.publishers[p];
    OwnedAtEnd(start, t, p);
    OwnAtEnd(me);
    hide Kept, PhaseKept, Held;
    assert me.archive[..|me.archive|] == me.archive && me.sidecar[..|me.sidecar|] == me.sidecar;
    assert IsPairOf(t, p, path.target);
  }

  /** Where the pair is all or nothing, whoever gave up any of it gave up the whole. */
  lemma GivenUpWhole(start: map<Path, File>, t: State, p: nat)
    requires Kept(start, t) && Quiescent(t) && p < |t.publishers| && AllOrNothing(t, t.publishers[p].target)
    requires Archive(t.publishers[p].target) !in start && Sidecar(t.publishers[p].target) !in start
    ensures Harmless(t.publishers[p], t.publishers[p].left)
  {
    var me := t.publishers[p];
    OwnedAtEnd(start, t, p);
    OwnAtEnd(me);
    if me.left != NOTHING {
      var archive, sidecar := Archive(me.target), Sidecar(me.target);
      var q :| 0 <= q < |t.publishers| && IsPairOf(t, q, me.target);
      assert FileKept(start, t, archive) && FileKept(start, t, sidecar);
      hide Kept, FileKept, PhaseKept;
      assert q == p;
      assert Prefix(me.archive, Own(me).archive) == Some(me.archive);
      assert Prefix(me.sidecar, Own(me).sidecar) == Some(me.sidecar);
    }
  }

  /** Once every invocation has ended, a pair that was absent at the start is all or nothing if and only
      if no invocation for that target gave up part of it: none was killed with part of it in place,
      interrupted between creating or copying a file and noting that, or failed to remove one, except so
      that both files stayed whole. Everything else the rollback undoes. */
  lemma PairsAreAllOrNothing(s: State, events: seq<Event>, target: nat)
    requires Initial(s) && Run(s, events).Some? && Quiescent(Run(s, events).value)
    requires Archive(target) !in s.files && Sidecar(target) !in s.files
    ensures AllOrNothing(Run(s, events).value, target)
            <==> forall p | 0 <= p < |s.publishers| && s.publishers[p].target == target ::
                   Harmless(s.publishers[p], GivenUp(s, events, p))
  {
    hide Run, GivenUp, AllOrNothing;
    KeptReachable(s, events);
    var t := Run(s, events).value;
    forall p | 0 <= p < |s.publishers|
      ensures |t.publishers| == |s.publishers| && SameWork(t.publishers[p], s.publishers[p])
              && t.publishers[p].left == GivenUp(s, events, p)
    {
      LeftIsGivenUp(s, events, p);
      WorkIsFixed(s, events, p);
    }
    WorkIsFixedCount(s, events);
    if forall p | 0 <= p < |s.publishers| && s.publishers[p].target == target ::
        Harmless(s.publishers[p], GivenUp(s, events, p)) {
      if Archive(target) in t.files {
        MakerMadeBoth(s.files, t, Archive(target));
      } else if Sidecar(target) in t.files {
        MakerMadeBoth(s.files, t, Sidecar(target));
      } else {
        NothingIsFine(t, target);
      }
    } else {
      var p :| 0 <= p < |s.publishers| && s.publishers[p].target == target
          && !Harmless(s.publishers[p], GivenUp(s, events, p));
      if AllOrNothing(t, target) { GivenUpWhole(s.files, t, p); }
    }
  }

  lemma NothingIsFine(s: State, target: nat)
    requires Archive(target) !in s.files && Sidecar(target) !in s.files
    ensures AllOrNothing(s, target)
  {
  }

  predicate SameWork(a: Publisher, b: Publisher) {
    a.target == b.target && a.archive == b.archive && a.sidecar == b.sidecar && a.usesLock == b.usesLock
  }

  lemma {:induction false} WorkIsFixedCount(s: State, events: seq<Event>)
    requires Run(s, events).Some?
    ensures |Run(s, events).value.publishers| == |s.publishers|
    decreases |events|
  {
    hide Step;
    if events != [] {
      StepHasPublisher(s, events[0]);
      WorkIsFixedCount(Step(s, events[0]).value, events[1..]);
    }
  }

  lemma {:induction false} WorkIsFixed(s: State, events: seq<Event>, p: nat)
    requires Run(s, events).Some? && p < |s.publishers|
    ensures var t := Run(s, events).value;
            |t.publishers| == |s.publishers| && SameWork(t.publishers[p], s.publishers[p])
    decreases |events|
  {
    hide Act, Abandoned;
    if events != [] {
      WorkIsFixed(Step(s, events[0]).value, events[1..], p);
    }
  }

  /** Two successful invocations for one target are impossible, so evidence is immutable. */
  lemma AtMostOneSucceeds(s: State, events: seq<Event>, p: nat, q: nat)
    requires Initial(s) && Run(s, events).Some?
    requires var t := Run(s, events).value;
             && p < |t.publishers| && q < |t.publishers| && t.publishers[p].target == t.publishers[q].target
             && t.publishers[p].phase == Ended(true) && t.publishers[q].phase == Ended(true)
    ensures p == q
  {
    hide Run;
    KeptReachable(s, events);
    var t := Run(s, events).value;
    OwnedAtEnd(s.files, t, p);
    OwnedAtEnd(s.files, t, q);
  }

  /** Where nothing at all was given up for the target, a pair that is there was published: its
      invocation succeeded. */
  lemma CleanPairIsPublished(s: State, events: seq<Event>, target: nat, path: Path)
    requires Initial(s) && Run(s, events).Some? && Quiescent(Run(s, events).value)
    requires path.target == target && path !in s.files && path in Run(s, events).value.files
    requires forall p | 0 <= p < |s.publishers| && s.publishers[p].target == target :: GivenUp(s, events, p) == NOTHING
    ensures var t := Run(s, events).value;
            exists p :: 0 <= p < |t.publishers| && t.publishers[p].phase == Ended(true)
                && t.publishers[p].target == target
                        && t.files[path].creator == Some(p)
  {
    hide Run, GivenUp;
    KeptReachable(s, events);
    var t := Run(s, events).value;
    assert FileKept(s.files, t, path);
    var p := t.files[path].creator.value;
    WorkIsFixedCount(s, events);
    LeftIsGivenUp(s, events, p);
    WorkIsFixed(s, events, p);
    assert OwnershipKept(s.files, t, p, path);
    OwnAtEnd(t.publishers[p]);
  }

  // ---------------------------------------------------------------- a stranded archive

  /** One step of a lone invocation, followed by the rest of a run. */
  lemma AloneStep(me: Publisher, files: map<Path, File>, lock: map<nat, nat>, course: Course, phase: Phase,
                  after: map<Path, File>, rest: seq<Event>)
    requires Act(me, files, me.target in lock, Event(0, course)) == Some((phase, after))
    ensures var e := Event(0, course);
            Run(State(files, lock, [me]), [e] + rest)
            == Run(State(after, LockAfter(lock, me, e, phase), [Next(me, phase, course)]), rest)
  {
    hide Act, Next;
    var e := Event(0, course);
    assert [me][0 := Next(me, phase, course)] == [Next(me, phase, course)];
    assert ([e] + rest)[1..] == rest;
  }

  const GO := Event(0, Proceeds(0))

  /** A lone invocation up to the moment its archive exists. */
  lemma RunToOpened(me: Publisher, rest: seq<Event>)
    requires me.usesLock && me.phase.Locking? && me.left == NOTHING
    ensures Run(State(map[], map[], [me]), [GO] + ([GO] + ([GO] + ([GO] + ([GO] + rest)))))
            == Run(State(map[Archive(me.target) := File(Some(0), [])], map[me.target := 0],
                [me.(phase := OpenedArchive)]), rest)
  {
    hide Run, Held;
    var lock := map[me.target := 0];
    AloneStep(me, map[], map[], Proceeds(0), Locked, map[], [GO] + ([GO] + ([GO] + ([GO] + rest))));
    AloneStep(me.(phase := Locked), map[], lock, Proceeds(0), CheckingArchive, map[], [GO] + ([GO] + ([GO] + rest)));
    AloneStep(me.(phase := CheckingArchive), map[], lock, Proceeds(0), CheckingSidecar, map[], [GO] + ([GO] + rest));
    AloneStep(me.(phase := CheckingSidecar), map[], lock, Proceeds(0), CreatingArchive, map[], [GO] + rest);
    AloneStep(me.(phase := CreatingArchive), map[], lock, Proceeds(0), OpenedArchive,
              map[Archive(me.target) := File(Some(0), [])], rest);
  }

  /** A lone invocation that is interrupted right after creating the archive leaves it there, empty and
      without its sidecar, although it unwinds in good order. */
  lemma InterruptStrandsArchive(target: nat, archive: Bytes, sidecar: Bytes)
    ensures var s := State(map[], map[], [Publisher(target, archive, sidecar, true, Locking, NOTHING)]);
            var events := [GO] + ([GO] + ([GO] + ([GO] + ([GO] + ([Event(0, Fails)] + ([GO] + []))))));
            && Initial(s) && Run(s, events).Some?
            && var t := Run(s, events).value;
            && Quiescent(t) && t.lock == map[] && t.files == map[Archive(target) := File(Some(0), [])]
            && !AllOrNothing(t, target)
  {
    hide Run;
    var me := Publisher(target, archive, sidecar, true, Locking, NOTHING);
    var files, lock := map[Archive(target) := File(Some(0), [])], map[target := 0];
    var gaveUp := me.(phase := Unlocking(false), left := Left(Some(0), None));
    RunToOpened(me, [Event(0, Fails)] + ([GO] + []));
    AloneStep(me.(phase := OpenedArchive), files, lock, Fails, Unlocking(false), files, [GO] + []);
    AloneStep(gaveUp, files, lock, Proceeds(0), Ended(false), files, []);
    RunNothing(State(files, lock - {target}, [gaveUp.(phase := Ended(false))]));
  }

  lemma RunNothing(s: State)
    ensures Run(s, []) == Some(s)
  {
  }

  /** The writes of a copy: none for an empty file, one for any other. */
  function Writes(data: Bytes): seq<Event> {
    if data == [] then [] else [Event(0, Proceeds(|data|))]
  }

  /** A lone invocation from its created archive to its finished archive. */
  lemma RunToNotedArchive(me: Publisher, lock: map<nat, nat>, rest: seq<Event>)
    requires me.phase.OpenedArchive? && me.left == NOTHING
    ensures var archive := Archive(me.target);
            Run(State(map[archive := File(Some(0), [])], lock, [me]),
                [GO] + (Writes(me.archive) + ([GO] + ([GO] + rest))))
            == Run(State(map[archive := File(Some(0), me.archive)], lock, [me.(phase := CreatingSidecar)]), rest)
  {
    hide Run, Held;
    var empty, whole := map[Archive(me.target) := File(Some(0), [])],
        map[Archive(me.target) := File(Some(0), me.archive)];
    var tail, n := [GO] + ([GO] + rest), |me.archive|;
    AloneStep(me, empty, lock, Proceeds(0), WritingArchive(0), empty, Writes(me.archive) + tail);
    if n > 0 {
      assert me.archive[..0 + n] == me.archive;
      assert empty[Archive(me.target) := File(Some(0), me.archive)] == whole;
      AloneStep(me.(phase := WritingArchive(0)), empty, lock, Proceeds(n), WritingArchive(n), whole, tail);
    } else {
      assert Writes(me.archive) + tail == tail;
    }
    AloneStep(me.(phase := WritingArchive(n)), whole, lock, Proceeds(0), CopiedArchive, whole, [GO] + rest);
    AloneStep(me.(phase := CopiedArchive), whole, lock, Proceeds(0), CreatingSidecar, whole, rest);
  }

  /** On to the copied sidecar. */
  lemma RunToCopiedSidecar(me: Publisher, files: map<Path, File>, lock: map<nat, nat>, tail: seq<Event>)
    requires me.phase.CreatingSidecar? && me.left == NOTHING && Sidecar(me.target) !in files
    ensures Run(State(files, lock, [me]), [GO] + ([GO] + (Writes(me.sidecar) + ([GO] + tail))))
            == Run(State(files[Sidecar(me.target) := File(Some(0), me.sidecar)], lock, [me.(phase := CopiedSidecar)]),
                tail)
  {
    hide Run, Held;
    var empty := files[Sidecar(me.target) := File(Some(0), [])];
    var whole := files[Sidecar(me.target) := File(Some(0), me.sidecar)];
    var rest, n := [GO] + tail, |me.sidecar|;
    AloneStep(me, files, lock, Proceeds(0), OpenedSidecar, empty, [GO] + (Writes(me.sidecar) + rest));
    AloneStep(me.(phase := OpenedSidecar), empty, lock, Proceeds(0), WritingSidecar(0), empty,
        Writes(me.sidecar) + rest);
    if n > 0 {
      assert me.sidecar[..0 + n] == me.sidecar;
      assert empty[Sidecar(me.target) := File(Some(0), me.sidecar)] == whole;
      AloneStep(me.(phase := WritingSidecar(0)), empty, lock, Proceeds(n), WritingSidecar(n), whole, rest);
    } else {
      assert Writes(me.sidecar) + rest == rest;
    }
    AloneStep(me.(phase := WritingSidecar(n)), whole, lock, Proceeds(0), CopiedSidecar, whole, tail);
  }

  /** And to the end. */
  lemma RunToEnd(me: Publisher, files: map<Path, File>, lock: map<nat, nat>)
    requires me.phase.CopiedSidecar? && me.left == NOTHING && me.usesLock
    ensures Run(State(files, lock, [me]), [GO] + ([GO] + ([GO] + [])))
            == Some(State(files, lock - {me.target}, [me.(phase := Ended(true))]))
  {
    hide Run, Held;
    AloneStep(me, files, lock, Proceeds(0), Noted, files, [GO] + ([GO] + []));
    AloneStep(me.(phase := Noted), files, lock, Proceeds(0), Unlocking(true), files, [GO] + []);
    AloneStep(me.(phase := Unlocking(true)), files, lock, Proceeds(0), Ended(true), files, []);
    RunNothing(State(files, lock - {me.target}, [me.(phase := Ended(true))]));
  }

  /** A lone invocation in an empty directory that nothing goes wrong with succeeds: both files are there
      whole and the lock is gone. */
  lemma LoneInvocationPublishes(target: nat, archive: Bytes, sidecar: Bytes) returns (events: seq<Event>)
    ensures var me := Publisher(target, archive, sidecar, true, Locking, NOTHING);
            Run(State(map[], map[], [me]), events)
            == Some(State(map[Archive(target) := File(Some(0), archive), Sidecar(target) := File(Some(0), sidecar)],
                map[],
                          [me.(phase := Ended(true))]))
  {
    hide Run;
    var me := Publisher(target, archive, sidecar, true, Locking, NOTHING);
    var lock, files := map[target := 0], map[Archive(target) := File(Some(0), archive)];
    var fourth := [GO] + ([GO] + ([GO] + []));
    var third := [GO] + ([GO] + (Writes(sidecar) + ([GO] + fourth)));
    var second := [GO] + (Writes(archive) + ([GO] + ([GO] + third)));
    RunToOpened(me, second);
    RunToNotedArchive(me.(phase := OpenedArchive), lock, third);
    RunToCopiedSidecar(me.(phase := CreatingSidecar), files, lock, fourth);
    RunToEnd(me.(phase := CopiedSidecar), files[Sidecar(target) := File(Some(0), sidecar)], lock);
    assert lock - {target} == map[];
    events := [GO] + ([GO] + ([GO] + ([GO] + ([GO] + second))));
  }

  // ---------------------------------------------------------------- the lock

  predicate Inside(me: Publisher) {
    me.usesLock && !me.phase.Locking? && !me.phase.Ended?
  }

  /** Whoever is inside holds the lock of its target; a lock file may also be left over. */
  ghost predicate LockKept(s: State) {
    forall p | 0 <= p < |s.publishers| && Inside(s.publishers[p]) ::
      s.publishers[p].target in s.lock && s.lock[s.publishers[p].target] == p
  }

  /** How a step moves an invocation in and out of the lock. */
  lemma ActInside(me: Publisher, files: map<Path, File>, held: bool, e: Event)
    requires Act(me, files, held, e).Some?
    ensures var then_ := Next(me, Act(me, files, held, e).value.0, e.course);
            && SameWork(then_, me)
            && (Inside(then_) ==> Inside(me) || (then_.phase.Locked? && !held))
            && (then_.phase.Locked? ==> me.usesLock && me.phase.Locking? && !held)
            && (me.phase.Unlocking? ==> then_.phase.Ended?)
  {
    hide Abandoned;
  }

  lemma LockKeptByStep(s: State, e: Event)
    requires LockKept(s) && Step(s, e).Some?
    ensures LockKept(Step(s, e).value)
  {
    hide Act, Next;
    var me := s.publishers[e.p];
    ActInside(me, s.files, me.target in s.lock, e);
    NextPhase(me, Act(me, s.files, me.target in s.lock, e).value.0, e.course);
  }

  lemma NextPhase(me: Publisher, phase: Phase, course: Course)
    ensures Next(me, phase, course).phase == phase
  {
  }

  lemma {:induction false} LockKeptByRun(s: State, events: seq<Event>)
    requires LockKept(s) && Run(s, events).Some?
    ensures LockKept(Run(s, events).value)
    decreases |events|
  {
    hide Step, LockKept;
    if events != [] {
      LockKeptByStep(s, events[0]);
      LockKeptByRun(Step(s, events[0]).value, events[1..]);
    }
  }

  /** Among invocations that use the lock, at most one per target is ever between taking the lock and
      releasing it, whatever lock files were left over and whoever is killed. */
  lemma LockExcludes(s: State, events: seq<Event>, p: nat, q: nat)
    requires Initial(s) && Run(s, events).Some?
    requires var t := Run(s, events).value;
             && p < |t.publishers| && q < |t.publishers| && t.publishers[p].target == t.publishers[q].target
             && Inside(t.publishers[p]) && Inside(t.publishers[q])
    ensures p == q
  {
    hide Run;
    LockKeptByRun(s, events);
  }

  /** The lock of a target is there and nobody is inside. */
  ghost predicate Deadlocked(s: State, target: nat) {
    target in s.lock &&
    forall p | 0 <= p < |s.publishers| && s.publishers[p].target == target :: !Inside(s.publishers[p])
  }

  lemma DeadlockedByStep(s: State, e: Event, target: nat)
    requires Deadlocked(s, target) && Step(s, e).Some?
    ensures Deadlocked(Step(s, e).value, target)
  {
    hide Act, Next;
    var me := s.publishers[e.p];
    ActInside(me, s.files, me.target in s.lock, e);
    NextPhase(me, Act(me, s.files, me.target in s.lock, e).value.0, e.course);
  }

  /** A lock file left over by a killed invocation keeps everyone who uses the lock out for good. */
  lemma {:induction false} LeftoverLockExcludesAll(s: State, events: seq<Event>, target: nat)
    requires Deadlocked(s, target) && Run(s, events).Some?
    ensures Deadlocked(Run(s, events).value, target)
    decreases |events|
  {
    hide Step, Deadlocked;
    if events != [] {
      DeadlockedByStep(s, events[0], target);
      LeftoverLockExcludesAll(Step(s, events[0]).value, events[1..], target);
    }
  }
}
