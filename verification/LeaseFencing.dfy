/**
 * The directory lock shared by processes (packages/artifact-store/src/repository.ts:399-734).
 * Every file-system call is one step, any number of holders and recoverers take steps in any order,
 * any call may fail, and every clock reading is arbitrary. Random names are unique, so a lease is
 * named by its token and a recovery attempt by a number; an inode is not used twice.
 */
module LeaseFencing {
  import opened Wrappers

  type Token = nat
  type Attempt = nat

  /** A file's identity: the owner file a lease creates once, or an attempt's `owner-recovery.json`. */
  datatype FileId = OwnerFile(token: Token) | RecoveryFile(attempt: Attempt)

  datatype Name = OwnerName(token: Token) | RecoveryName | ClaimedName(attempt: Attempt) | ReleasedName(token: Token)

  /** `dir` is the directory the file is in; `written` says its content has been written. */
  datatype File = File(dir: nat, name: Name, mtime: real, written: bool)

  datatype Phase = Making | Writing | Failing | Aborted | Held | Over

  datatype Ender = OwnRelease | Recovered(attempt: Attempt)

  /**
   * A lease as its holder keeps it: `refreshing` is the time read by the refresh under way, `failed`
   * the heartbeat failure. The last four fields are history: the directory it made, refreshes that
   * succeeded, the attempt that has the owner file, and who ended the lease.
   */
  datatype Lease = Lease(
    phase: Phase, refreshing: Option<real>, failed: bool, released: bool,
    made: nat, refreshes: nat, holder: Option<Attempt>, ended: seq<Ender>)

  /** What `stat` says of a file; `seen` is history, the refreshes its lease had by then. */
  datatype Stat = Stat(file: FileId, mtime: real, written: bool, seen: nat)

  /** What a file holds: nothing yet, or its own token. */
  type Contents = Option<FileId>

  datatype Snapshot = Snapshot(contents: Contents, stat: Stat)

  /** One attempt to recover a stale lock. `since` is history: the refreshes when the file was claimed. */
  datatype Recoverer =
    | Reading(path: Name, contents: Option<Contents>, stat: Option<Stat>)
    | Stale(path: Name, before: Snapshot)
    | Checking(path: Name, before: Snapshot, file: FileId, since: nat, contents: Option<Contents>, stat: Option<Stat>)
    | Restoring(path: Name, file: FileId)
    | Won(before: Snapshot, file: FileId, since: nat, moved: bool)
    | Unowned
    | Ownerless(dir: nat)
    | Entered(dir: nat)
    | Compared
    | WonEmpty
    | Finished

  /** `dirAt` is the directory now at the lock path. */
  datatype Disk = Disk(leaseMs: real, dirAt: Option<nat>, nextDir: nat, files: map<FileId, File>)

  datatype System = System(disk: Disk, leases: map<Token, Lease>, recoverers: map<Attempt, Recoverer>)

  // ----- the file system --------------------------------------------------

  /** The file the lock path has under a name. */
  predicate At(d: Disk, f: FileId, name: Name) {
    f in d.files && d.files[f].name == name && d.dirAt == Some(d.files[f].dir)
  }

  ghost predicate Missing(d: Disk, name: Name) {
    forall f: FileId :: !At(d, f, name)
  }

  predicate IsOwnerName(name: Name) {
    name.OwnerName? || name.RecoveryName?
  }

  /** `rename` inside the lock directory; a file already under the new name is replaced. */
  function Renamed(d: Disk, f: FileId, name: Name): Disk
    requires f in d.files
  {
    var kept := map g | g in d.files && (g == f || !At(d, g, name)) :: d.files[g];
    d.(files := kept[f := d.files[f].(name := name)])
  }

  /** The time a refresh writes: whole milliseconds, later than the one it read. */
  function NextHeartbeat(now: real, mtime: real): real {
    (if now >= mtime + 1.0 then now else mtime + 1.0).Floor as real
  }

  lemma RefreshAdvances(now: real, mtime: real)
    ensures NextHeartbeat(now, mtime) > mtime
  {
    var later := if now >= mtime + 1.0 then now else mtime + 1.0;
    assert later.Floor as real > later - 1.0;
  }

  // ----- steps ------------------------------------------------------------

  datatype HolderStep =
    | MakeDir
    | CreateOwner(now: real)
    | WriteOwner(now: real)
    | CreateFails
    | RefreshStat
    | RefreshSet(now: real)
    | RefreshFails
    | Release
    | ReleaseOwner
    | ReleaseDir

  datatype RecovererStep =
    | Look(name: Name)
    | ReadContents(f: FileId)
    | ReadStat(f: FileId)
    | Judge(now: real, ownerDead: bool)
    | Claim(f: FileId)
    | CheckContents
    | CheckStat
    | Verify
    | Restore
    | MoveDir
    | LookEmpty
    | StatDir
    | EnterEmpty(now: real)
    | CompareDir
    | CheckEmpty
    | GiveUp

  /** `Delete` and `RemoveDir` are recursive removal, one file or the emptied directory at a time. */
  datatype Step =
    | Holder(t: Token, holding: HolderStep)
    | Recoverer(r: Attempt, recovering: RecovererStep)
    | Delete(f: FileId)
    | RemoveDir(t: Token)

  predicate Is(s: System, t: Token, phase: Phase) {
    t in s.leases && s.leases[t].phase == phase
  }

  predicate May(s: System, t: Token) {
    Is(s, t, Held) && !s.leases[t].failed
  }

  /** The refreshes a file's lease has had; a recovery file has none. */
  function RefreshesOf(s: System, f: FileId): nat {
    if f.OwnerFile? && f.token in s.leases then s.leases[f.token].refreshes else 0
  }

  function ContentsOf(s: System, f: FileId): Contents
    requires f in s.disk.files
  {
    if s.disk.files[f].written then Some(f) else None
  }

  function StatOf(s: System, f: FileId): Stat
    requires f in s.disk.files
  {
    Stat(f, s.disk.files[f].mtime, s.disk.files[f].written, RefreshesOf(s, f))
  }

  predicate SameOwner(before: Snapshot, contents: Contents, stat: Stat) {
    && before.contents == contents && before.stat.file == stat.file
    && before.stat.mtime == stat.mtime && before.stat.written == stat.written
  }

  function WithLease(s: System, t: Token, lease: Lease): System {
    s.(leases := s.leases[t := lease])
  }

  function WithRecoverer(s: System, r: Attempt, recoverer: Recoverer): System {
    s.(recoverers := s.recoverers[r := recoverer])
  }

  function WithFile(s: System, f: FileId, file: File): System {
    s.(disk := s.disk.(files := s.disk.files[f := file]))
  }

  function WithoutDir(s: System): System {
    s.(disk := s.disk.(dirAt := None))
  }

  // ----- a holder's steps (lines 411-436 and 476-528) -----------------------

  ghost predicate MayHold(s: System, t: Token, step: HolderStep) {
    var d := s.disk;
    match step
    case MakeDir => t !in s.leases && d.dirAt.None?
    case CreateOwner(now) => Is(s, t, Making) && d.dirAt.Some?
    case WriteOwner(now) => Is(s, t, Writing)
    case CreateFails => Is(s, t, Making) || Is(s, t, Writing)
    case RefreshStat =>
      May(s, t) && !s.leases[t].released && s.leases[t].refreshing.None? && At(d, OwnerFile(t), OwnerName(t))
    case RefreshSet(now) => May(s, t) && s.leases[t].refreshing.Some? && At(d, OwnerFile(t), OwnerName(t))
    case RefreshFails => May(s, t)
    case Release => Is(s, t, Held)
    case ReleaseOwner =>
      Is(s, t, Held) && s.leases[t].released && s.leases[t].refreshing.None? && At(d, OwnerFile(t), OwnerName(t))
    case ReleaseDir => Is(s, t, Held) && OwnRelease in s.leases[t].ended
  }

  ghost function HolderNext(s: System, t: Token, step: HolderStep): System
    requires MayHold(s, t, step)
  {
    var d := s.disk;
    match step
    case MakeDir =>
      System(d.(dirAt := Some(d.nextDir), nextDir := d.nextDir + 1),
             s.leases[t := Lease(Making, None, false, false, d.nextDir, 0, None, [])], s.recoverers)
    case CreateOwner(now) =>
      WithFile(WithLease(s, t, s.leases[t].(phase := Writing)), OwnerFile(t),
        File(d.dirAt.value, OwnerName(t), now, false))
    case WriteOwner(now) =>
      // The content goes to the open file, wherever it has been moved to.
      var held := WithLease(s, t, s.leases[t].(phase := Held));
      if OwnerFile(t) in d.files
      then WithFile(held, OwnerFile(t), d.files[OwnerFile(t)].(mtime := now, written := true)) else held
    case CreateFails => WithLease(s, t, s.leases[t].(phase := Failing))
    case RefreshStat => WithLease(s, t, s.leases[t].(refreshing := Some(d.files[OwnerFile(t)].mtime)))
    case RefreshSet(now) =>
      var lease := s.leases[t];
      WithFile(WithLease(s, t, lease.(refreshing := None, refreshes := lease.refreshes + 1)), OwnerFile(t),
               d.files[OwnerFile(t)].(mtime := NextHeartbeat(now, lease.refreshing.value)))
    case RefreshFails => WithLease(s, t, s.leases[t].(refreshing := None, failed := true))
    case Release => WithLease(s, t, s.leases[t].(released := true))
    case ReleaseOwner =>
      WithLease(s, t, s.leases[t].(ended := s.leases[t].ended + [OwnRelease]))
        .(disk := Renamed(d, OwnerFile(t), ReleasedName(t)))
    case ReleaseDir => WithLease(WithoutDir(s), t, s.leases[t].(phase := Over))
  }

  // ----- a recoverer's steps (lines 536-577 and 607-734) --------------------

  ghost predicate MayRecover(s: System, r: Attempt, step: RecovererStep) {
    var d := s.disk;
    if step.Look? then r !in s.recoverers && IsOwnerName(step.name) && !Missing(d, step.name)
    else if step.LookEmpty? then
      r !in s.recoverers && d.dirAt.Some? && forall name | IsOwnerName(name) :: Missing(d, name)
    else r in s.recoverers && MayGoOn(d, r, s.recoverers[r], step)
  }

  ghost predicate MayGoOn(d: Disk, r: Attempt, c: Recoverer, step: RecovererStep) {
    match step
    case ReadContents(f) => c.Reading? && At(d, f, c.path)
    case ReadStat(f) => c.Reading? && At(d, f, c.path)
    case Judge(now, dead) =>
      c.Reading? && c.contents.Some? && c.stat.Some?
      && ((dead && c.contents.value.Some?) || c.stat.value.mtime + d.leaseMs <= now)
    case Claim(f) => c.Stale? && At(d, f, c.path)
    case CheckContents => c.Checking? && At(d, c.file, ClaimedName(r))
    case CheckStat => c.Checking? && At(d, c.file, ClaimedName(r))
    case Verify => c.Checking? && c.contents.Some? && c.stat.Some?
    case Restore => c.Restoring? && At(d, c.file, ClaimedName(r))
    case MoveDir => c.WonEmpty? || (c.Won? && !c.moved)
    case StatDir => c.Unowned? && d.dirAt.Some?
    case EnterEmpty(now) => c.Ownerless? && RecoveryFile(r) !in d.files && d.dirAt.Some? && Missing(d, RecoveryName)
    case CompareDir => c.Entered? && d.dirAt == Some(c.dir)
    case CheckEmpty => c.Compared? && forall t: Token :: Missing(d, OwnerName(t))
    case GiveUp => !c.Won?
    case _ => false
  }

  /** The lease of an owner file, changed. */
  function OnLeaseOf(s: System, f: FileId, change: Lease -> Lease): System {
    if f.OwnerFile? && f.token in s.leases then WithLease(s, f.token, change(s.leases[f.token])) else s
  }

  ghost function RecovererNext(s: System, r: Attempt, step: RecovererStep): System
    requires MayRecover(s, r, step)
  {
    var d := s.disk;
    if step.Look? then WithRecoverer(s, r, Reading(step.name, None, None))
    else if step.LookEmpty? then WithRecoverer(s, r, Unowned)
    else
      var c := s.recoverers[r];
      match step
      case ReadContents(f) => WithRecoverer(s, r, Reading(c.path, Some(ContentsOf(s, f)), c.stat))
      case ReadStat(f) => WithRecoverer(s, r, Reading(c.path, c.contents, Some(StatOf(s, f))))
      case Judge(now, dead) => WithRecoverer(s, r, Stale(c.path, Snapshot(c.contents.value, c.stat.value)))
      case Claim(f) => Claimed(s, r, f)
      case CheckContents =>
        WithRecoverer(s, r, Checking(c.path, c.before, c.file, c.since, Some(ContentsOf(s, c.file)), c.stat))
      case CheckStat =>
        WithRecoverer(s, r, Checking(c.path, c.before, c.file, c.since, c.contents, Some(StatOf(s, c.file))))
      case Verify =>
        if SameOwner(c.before, c.contents.value, c.stat.value) then Verified(s, r)
        else WithRecoverer(s, r, Restoring(c.path, c.file))
      case Restore => Restored(s, r)
      case MoveDir => WithRecoverer(WithoutDir(s), r, if c.Won? then Won(c.before, c.file, c.since, true) else Finished)
      case StatDir => WithRecoverer(s, r, Ownerless(d.dirAt.value))
      case EnterEmpty(now) =>
        WithFile(WithRecoverer(s, r, Entered(c.dir)), RecoveryFile(r), File(d.dirAt.value, RecoveryName, now, true))
      case CompareDir => WithRecoverer(s, r, Compared)
      case CheckEmpty => WithRecoverer(s, r, WonEmpty)
      case GiveUp => WithRecoverer(s, r, Finished)
  }

  function Claimed(s: System, r: Attempt, f: FileId): System
    requires r in s.recoverers && s.recoverers[r].Stale? && f in s.disk.files
  {
    var c := s.recoverers[r];
    var claimed := WithRecoverer(s, r, Checking(c.path, c.before, f, RefreshesOf(s, f), None, None));
    OnLeaseOf(claimed, f, (l: Lease) => l.(holder := Some(r))).(disk := Renamed(s.disk, f, ClaimedName(r)))
  }

  function Verified(s: System, r: Attempt): System
    requires r in s.recoverers && s.recoverers[r].Checking?
  {
    var c := s.recoverers[r];
    OnLeaseOf(WithRecoverer(s, r, Won(c.before, c.file, c.since, false)), c.file,
              (l: Lease) => l.(ended := l.ended + [Recovered(r)]))
  }

  function Restored(s: System, r: Attempt): System
    requires r in s.recoverers && s.recoverers[r].Restoring? && s.recoverers[r].file in s.disk.files
  {
    var c := s.recoverers[r];
    OnLeaseOf(WithRecoverer(s, r, Finished), c.file, (l: Lease) => l.(holder := None))
      .(disk := Renamed(s.disk, c.file, c.path))
  }

  // ----- all steps --------------------------------------------------------

  /** Files go from a directory that was moved away or that a failed creator clears, and recovery files at any time. */
  predicate MayDelete(s: System, f: FileId) {
    && f in s.disk.files
    && (|| s.disk.dirAt != Some(s.disk.files[f].dir)
        || f.RecoveryFile?
        || exists t :: t in s.leases && s.leases[t].phase.Failing?)
  }

  predicate MayRemoveDir(s: System, t: Token) {
    Is(s, t, Failing) && forall f | f in s.disk.files :: s.disk.dirAt != Some(s.disk.files[f].dir)
  }

  /** A step that cannot be taken now changes nothing. */
  ghost function Next(s: System, step: Step): System {
    match step
    case Holder(t, h) => if MayHold(s, t, h) then HolderNext(s, t, h) else s
    case Recoverer(r, c) => if MayRecover(s, r, c) then RecovererNext(s, r, c) else s
    case Delete(f) => if MayDelete(s, f) then s.(disk := s.disk.(files := s.disk.files - {f})) else s
    case RemoveDir(t) =>
      if MayRemoveDir(s, t) then WithLease(WithoutDir(s), t, s.leases[t].(phase := Aborted)) else s
  }

  ghost function Run(s: System, steps: seq<Step>): System
    decreases |steps|
  {
    if steps == [] then s else Run(Next(s, steps[0]), steps[1..])
  }

  // ----- invariant, one lease at a time ------------------------------------

  /** All that one lease's invariant looks at, besides the recoverers. */
  datatype View = View(lease: Option<Lease>, file: Option<File>)

  function ViewOf(s: System, t: Token): View {
    View(if t in s.leases then Some(s.leases[t]) else None,
         if OwnerFile(t) in s.disk.files then Some(s.disk.files[OwnerFile(t)]) else None)
  }

  predicate Live(phase: Phase) {
    phase.Held? || phase.Over?
  }

  predicate FileOk(t: Token, l: Lease, file: File) {
    && (file.written <==> Live(l.phase))
    && (l.refreshing.Some? ==> file.mtime == l.refreshing.value)
    && match file.name
       case OwnerName(u) => u == t && l.holder.None? && l.ended == []
       case ClaimedName(r) => l.holder == Some(r) && l.ended != [OwnRelease]
       case ReleasedName(u) => l.ended == [OwnRelease]
       case RecoveryName => false
  }

  predicate LeaseOk(t: Token, v: View) {
    match v.lease
    case None => v.file.None?
    case Some(l) =>
      && (!Live(l.phase) ==>
            l.refreshes == 0 && l.refreshing.None? && !l.failed && !l.released && OwnRelease !in l.ended)
      && (l.phase.Making? ==> v.file.None? && l.holder.None? && l.ended == [])
      && (l.ended == [] || l.ended == [OwnRelease] || (l.holder.Some? && l.ended == [Recovered(l.holder.value)]))
      && (v.file.Some? ==> FileOk(t, l, v.file.value))
  }

  /** A stat of the owner file that has not been overtaken has seen every refresh. */
  predicate SeenOk(t: Token, v: View, stat: Stat) {
    stat.file == OwnerFile(t) ==>
      && v.lease.Some? && !v.lease.value.phase.Making?
      && stat.seen <= v.lease.value.refreshes
      && (stat.written ==> Live(v.lease.value.phase))
      && (!stat.written ==> stat.seen == 0)
      && (stat.written && v.file.Some? ==>
            stat.mtime <= v.file.value.mtime
            && (stat.seen < v.lease.value.refreshes ==> stat.mtime < v.file.value.mtime))
  }

  /** The attempt has the owner file, if that is the file it claimed. */
  predicate HasOk(t: Token, v: View, r: Attempt, f: FileId, ended: seq<Ender>) {
    f == OwnerFile(t) ==>
      && v.lease.Some? && !v.lease.value.phase.Making?
      && v.lease.value.holder == Some(r) && v.lease.value.ended == ended
      && (v.file.Some? ==> v.file.value.name == ClaimedName(r))
  }

  predicate SameStat(a: Stat, b: Stat) {
    a.file == b.file && a.mtime == b.mtime && a.written == b.written
  }

  predicate RecovererOk(t: Token, v: View, r: Attempt, c: Recoverer) {
    match c
    case Reading(_, _, stat) => stat.Some? ==> SeenOk(t, v, stat.value)
    case Stale(_, before) => SeenOk(t, v, before.stat)
    case Checking(_, before, f, since, _, stat) =>
      && SeenOk(t, v, before.stat) && HasOk(t, v, r, f, [])
      && (f == OwnerFile(t) ==> since == v.lease.value.refreshes)
      && (stat.Some? ==> stat.value.file == f)
      && (f == OwnerFile(t) && stat.Some? && SameStat(before.stat, stat.value) ==> before.stat.seen == since)
    case Restoring(_, f) => HasOk(t, v, r, f, [])
    case Won(before, f, since, _) =>
      && HasOk(t, v, r, f, [Recovered(r)])
      && (f == OwnerFile(t) ==> before.stat.file == f && before.stat.seen == since == v.lease.value.refreshes)
    case _ => true
  }

  ghost predicate LeaseInv(s: System, t: Token) {
    && LeaseOk(t, ViewOf(s, t))
    && forall r | r in s.recoverers :: RecovererOk(t, ViewOf(s, t), r, s.recoverers[r])
  }

  predicate Fits(name: Name, f: FileId) {
    match name
    case OwnerName(t) => f == OwnerFile(t)
    case RecoveryName => f.RecoveryFile?
    case ClaimedName(_) => true
    case ReleasedName(t) => f == OwnerFile(t)
  }

  predicate PathOk(c: Recoverer) {
    match c
    case Reading(path, _, _) => IsOwnerName(path)
    case Stale(path, _) => IsOwnerName(path)
    case Checking(path, _, f, _, _, _) => IsOwnerName(path) && Fits(path, f)
    case Restoring(path, f) => IsOwnerName(path) && Fits(path, f)
    case _ => true
  }

  ghost predicate NamesOk(s: System) {
    && (forall f | f in s.disk.files :: Fits(s.disk.files[f].name, f))
    && (forall r | r in s.recoverers :: PathOk(s.recoverers[r]))
  }

  ghost predicate Inv(s: System) {
    NamesOk(s) && forall t: Token :: LeaseInv(s, t)
  }

  // ----- steps on one lease's view -----------------------------------------

  /** Nothing but, perhaps, the loss of the file. */
  predicate Dropped(v: View, w: View) {
    w.lease == v.lease && (w.file == v.file || w.file.None?)
  }

  lemma DroppedKeeps(t: Token, v: View, w: View, r: Attempt, c: Recoverer)
    requires Dropped(v, w) && RecovererOk(t, v, r, c)
    ensures RecovererOk(t, w, r, c)
  {
  }

  lemma LeaseFrame(s: System, s': System, t: Token)
    requires LeaseInv(s, t) && Dropped(ViewOf(s, t), ViewOf(s', t)) && s'.recoverers == s.recoverers
    ensures LeaseInv(s', t)
  {
    forall r | r in s'.recoverers ensures RecovererOk(t, ViewOf(s', t), r, s'.recoverers[r]) {
      DroppedKeeps(t, ViewOf(s, t), ViewOf(s', t), r, s.recoverers[r]);
    }
  }

  lemma RenamedOthers(d: Disk, f: FileId, name: Name, g: FileId)
    requires f in d.files && g != f && g in Renamed(d, f, name).files
    ensures g in d.files && Renamed(d, f, name).files[g] == d.files[g]
  {
  }

  /** The view of a lease after its own holder's step. */
  ghost predicate HolderView(t: Token, v: View, w: View, step: HolderStep) {
    match step
    case MakeDir =>
      v.lease.None? && w.file == v.file
      && exists made :: w.lease == Some(Lease(Making, None, false, false, made, 0, None, []))
    case CreateOwner(now) =>
      v.lease.Some? && v.lease.value.phase.Making? && w.lease == Some(v.lease.value.(phase := Writing))
      && w.file.Some? && w.file.value.name == OwnerName(t) && !w.file.value.written
    case WriteOwner(now) =>
      v.lease.Some? && v.lease.value.phase.Writing? && w.lease == Some(v.lease.value.(phase := Held))
      && w.file == if v.file.Some? then Some(v.file.value.(mtime := now, written := true)) else None
    case CreateFails =>
      v.lease.Some? && (v.lease.value.phase.Making? || v.lease.value.phase.Writing?)
      && w == v.(lease := Some(v.lease.value.(phase := Failing)))
    case RefreshStat =>
      v.lease.Some? && v.lease.value.phase.Held? && v.file.Some?
      && w == v.(lease := Some(v.lease.value.(refreshing := Some(v.file.value.mtime))))
    case RefreshSet(now) =>
      v.lease.Some? && v.lease.value.phase.Held? && v.lease.value.refreshing.Some?
      && v.file.Some? && v.file.value.name == OwnerName(t)
      && w == View(Some(v.lease.value.(refreshing := None, refreshes := v.lease.value.refreshes + 1)),
                   Some(v.file.value.(mtime := NextHeartbeat(now, v.lease.value.refreshing.value))))
    case RefreshFails =>
      v.lease.Some? && v.lease.value.phase.Held?
      && w == v.(lease := Some(v.lease.value.(refreshing := None, failed := true)))
    case Release =>
      v.lease.Some? && v.lease.value.phase.Held? && w == v.(lease := Some(v.lease.value.(released := true)))
    case ReleaseOwner =>
      v.lease.Some? && v.lease.value.phase.Held? && v.file.Some? && v.file.value.name == OwnerName(t)
      && w == View(Some(v.lease.value.(ended := v.lease.value.ended + [OwnRelease])),
                   Some(v.file.value.(name := ReleasedName(t))))
    case ReleaseDir =>
      v.lease.Some? && v.lease.value.phase.Held? && w == v.(lease := Some(v.lease.value.(phase := Over)))
  }

  lemma HolderMakesView(s: System, t: Token, step: HolderStep)
    requires MayHold(s, t, step)
    ensures HolderView(t, ViewOf(s, t), ViewOf(HolderNext(s, t, step), t), step)
  {
  }

  lemma HolderKeepsLease(t: Token, v: View, w: View, step: HolderStep)
    requires HolderView(t, v, w, step) && LeaseOk(t, v)
    ensures LeaseOk(t, w)
  {
  }

  lemma HolderKeepsRecoverer(t: Token, v: View, w: View, step: HolderStep, r: Attempt, c: Recoverer)
    requires HolderView(t, v, w, step) && LeaseOk(t, v) && RecovererOk(t, v, r, c)
    ensures RecovererOk(t, w, r, c)
  {
    if step.RefreshSet? {
      RefreshAdvances(step.now, v.lease.value.refreshing.value);
    }
  }

  lemma HolderKeeps(s: System, t: Token, step: HolderStep, u: Token)
    requires MayHold(s, t, step) && LeaseInv(s, u)
    ensures LeaseInv(HolderNext(s, t, step), u)
  {
    var s' := HolderNext(s, t, step);
    if u == t {
      HolderMakesView(s, t, step);
      HolderKeepsLease(t, ViewOf(s, t), ViewOf(s', t), step);
      forall r | r in s'.recoverers ensures RecovererOk(t, ViewOf(s', t), r, s'.recoverers[r]) {
        HolderKeepsRecoverer(t, ViewOf(s, t), ViewOf(s', t), step, r, s.recoverers[r]);
      }
    } else {
      LeaseFrame(s, s', u);
    }
  }

  lemma HolderKeepsNames(s: System, t: Token, step: HolderStep)
    requires MayHold(s, t, step) && NamesOk(s)
    ensures NamesOk(HolderNext(s, t, step))
  {
  }

  // ----- a recoverer's step -------------------------------------------------

  /** Only attempt `r` changes, and the lease at most loses its file. */
  lemma OneRecoverer(s: System, s': System, t: Token, r: Attempt)
    requires LeaseInv(s, t) && Dropped(ViewOf(s, t), ViewOf(s', t))
    requires r in s'.recoverers && s'.recoverers == s.recoverers[r := s'.recoverers[r]]
    requires RecovererOk(t, ViewOf(s', t), r, s'.recoverers[r])
    ensures LeaseInv(s', t)
  {
    forall q | q in s'.recoverers ensures RecovererOk(t, ViewOf(s', t), q, s'.recoverers[q]) {
      if q != r {
        DroppedKeeps(t, ViewOf(s, t), ViewOf(s', t), q, s.recoverers[q]);
      }
    }
  }

  lemma StatHasSeen(s: System, t: Token, f: FileId)
    requires LeaseOk(t, ViewOf(s, t)) && f in s.disk.files
    ensures SeenOk(t, ViewOf(s, t), StatOf(s, f))
  {
  }

  /** A second look that finds nothing changed proves that no refresh came between. */
  lemma UnchangedMeansUnrefreshed(s: System, t: Token, before: Stat)
    requires LeaseOk(t, ViewOf(s, t)) && OwnerFile(t) in s.disk.files && SeenOk(t, ViewOf(s, t), before)
    requires SameStat(before, StatOf(s, OwnerFile(t)))
    ensures before.seen == s.leases[t].refreshes
  {
  }

  /** Steps that change nothing but the attempt. */
  predicate Quiet(step: RecovererStep) {
    !step.Claim? && !step.Verify? && !step.Restore?
  }

  lemma QuietKeeps(s: System, r: Attempt, step: RecovererStep, t: Token)
    requires MayRecover(s, r, step) && Quiet(step) && LeaseInv(s, t)
    ensures LeaseInv(RecovererNext(s, r, step), t)
  {
    var s' := RecovererNext(s, r, step);
    if r in s.recoverers {
      assert RecovererOk(t, ViewOf(s, t), r, s.recoverers[r]);
      if step.ReadStat? {
        StatHasSeen(s, t, step.f);
      } else if step.CheckStat? {
        CheckFits(s, r, t);
      }
    }
    OneRecoverer(s, s', t, r);
  }

  lemma CheckFits(s: System, r: Attempt, t: Token)
    requires MayRecover(s, r, CheckStat) && LeaseInv(s, t)
    ensures var c := s.recoverers[r]; c.file == OwnerFile(t) && SameStat(c.before.stat, StatOf(s, c.file)) ==>
      c.before.stat.seen == c.since
  {
    var c := s.recoverers[r];
    assert RecovererOk(t, ViewOf(s, t), r, c);
    if c.file == OwnerFile(t) && SameStat(c.before.stat, StatOf(s, c.file)) {
      UnchangedMeansUnrefreshed(s, t, c.before.stat);
    }
  }

  /** Whoever has the owner file, nobody does while it stands under its own name. */
  lemma NobodyHas(t: Token, v: View, w: View, r: Attempt, c: Recoverer)
    requires v.lease.Some? && v.lease.value.holder.None? && RecovererOk(t, v, r, c)
    requires w.lease.Some? && w.lease.value.refreshes == v.lease.value.refreshes
      && w.lease.value.phase == v.lease.value.phase
    requires v.file.Some? && w.file.Some? && w.file.value.mtime == v.file.value.mtime
    ensures RecovererOk(t, w, r, c)
  {
  }

  lemma ClaimKeeps(s: System, r: Attempt, f: FileId, t: Token)
    requires MayRecover(s, r, Claim(f)) && NamesOk(s) && LeaseInv(s, t)
    ensures LeaseInv(Claimed(s, r, f), t)
  {
    var s' := Claimed(s, r, f);
    var v, w := ViewOf(s, t), ViewOf(s', t);
    assert RecovererOk(t, v, r, s.recoverers[r]) && PathOk(s.recoverers[r]);
    if f == OwnerFile(t) {
      assert v.file.value.name == OwnerName(t);
      forall q | q in s'.recoverers ensures RecovererOk(t, w, q, s'.recoverers[q]) {
        if q != r {
          NobodyHas(t, v, w, q, s.recoverers[q]);
        }
      }
    } else {
      OneRecoverer(s, s', t, r);
    }
  }

  lemma VerifiedMeansFenced(s: System, r: Attempt, t: Token)
    requires MayRecover(s, r, Verify) && LeaseInv(s, t)
    requires var c := s.recoverers[r]; c.file == OwnerFile(t) && SameOwner(c.before, c.contents.value, c.stat.value)
    ensures var c := s.recoverers[r]; c.before.stat.file == c.file && c.before.stat.seen == c.since
  {
    assert RecovererOk(t, ViewOf(s, t), r, s.recoverers[r]);
  }

  lemma VerifyKeeps(s: System, r: Attempt, t: Token)
    requires MayRecover(s, r, Verify) && LeaseInv(s, t)
    ensures LeaseInv(RecovererNext(s, r, Verify), t)
  {
    var s' := RecovererNext(s, r, Verify);
    var c := s.recoverers[r];
    var v, w := ViewOf(s, t), ViewOf(s', t);
    assert RecovererOk(t, v, r, c);
    if c.file == OwnerFile(t) && SameOwner(c.before, c.contents.value, c.stat.value) {
      VerifiedMeansFenced(s, r, t);
      forall q | q in s'.recoverers ensures RecovererOk(t, w, q, s'.recoverers[q]) {
        if q != r {
          OthersHaveNot(t, v, w, r, q, s.recoverers[q]);
        }
      }
    } else {
      OneRecoverer(s, s', t, r);
    }
  }

  /** While `r` has the file, ending the lease or giving the file back concerns no other attempt. */
  lemma OthersHaveNot(t: Token, v: View, w: View, r: Attempt, q: Attempt, c: Recoverer)
    requires q != r && v.lease.Some? && v.lease.value.holder == Some(r) && RecovererOk(t, v, q, c)
    requires w.lease.Some? && w.lease.value.refreshes == v.lease.value.refreshes
      && w.lease.value.phase == v.lease.value.phase
    requires w.file.Some? ==> v.file.Some? && w.file.value.mtime == v.file.value.mtime
    ensures RecovererOk(t, w, q, c)
  {
  }

  lemma RestoreKeeps(s: System, r: Attempt, t: Token)
    requires MayRecover(s, r, Restore) && NamesOk(s) && LeaseInv(s, t)
    ensures LeaseInv(Restored(s, r), t)
  {
    var s' := Restored(s, r);
    var c := s.recoverers[r];
    var v, w := ViewOf(s, t), ViewOf(s', t);
    assert RecovererOk(t, v, r, c) && PathOk(c);
    if c.file == OwnerFile(t) {
      forall q | q in s'.recoverers ensures RecovererOk(t, w, q, s'.recoverers[q]) {
        if q != r {
          OthersHaveNot(t, v, w, r, q, s.recoverers[q]);
        }
      }
    } else {
      OneRecoverer(s, s', t, r);
    }
  }

  lemma RecovererKeeps(s: System, r: Attempt, step: RecovererStep, t: Token)
    requires MayRecover(s, r, step) && NamesOk(s) && LeaseInv(s, t)
    ensures LeaseInv(RecovererNext(s, r, step), t)
  {
    match step
    case Claim(f) => ClaimKeeps(s, r, f, t);
    case Verify => VerifyKeeps(s, r, t);
    case Restore => RestoreKeeps(s, r, t);
    case _ => QuietKeeps(s, r, step, t);
  }

  lemma RenamedKeepsNames(d: Disk, f: FileId, name: Name)
    requires f in d.files && Fits(name, f) && forall g | g in d.files :: Fits(d.files[g].name, g)
    ensures forall g | g in Renamed(d, f, name).files :: Fits(Renamed(d, f, name).files[g].name, g)
  {
    forall g | g in Renamed(d, f, name).files ensures Fits(Renamed(d, f, name).files[g].name, g) {
      if g != f {
        RenamedOthers(d, f, name, g);
      }
    }
  }

  lemma RecovererKeepsNames(s: System, r: Attempt, step: RecovererStep)
    requires MayRecover(s, r, step) && NamesOk(s)
    ensures NamesOk(RecovererNext(s, r, step))
  {
    if step.Claim? {
      RenamedKeepsNames(s.disk, step.f, ClaimedName(r));
    } else if step.Restore? {
      RenamedKeepsNames(s.disk, s.recoverers[r].file, s.recoverers[r].path);
    }
  }

  // ----- all steps, all runs ------------------------------------------------

  lemma StepKeeps(s: System, step: Step)
    requires Inv(s)
    ensures Inv(Next(s, step))
  {
    var s' := Next(s, step);
    match step
    case Holder(t, h) =>
      if MayHold(s, t, h) {
        HolderKeepsNames(s, t, h);
        forall u: Token ensures LeaseInv(s', u) {
          HolderKeeps(s, t, h, u);
        }
      }
    case Recoverer(r, c) =>
      if MayRecover(s, r, c) {
        RecovererKeepsNames(s, r, c);
        forall u: Token ensures LeaseInv(s', u) {
          RecovererKeeps(s, r, c, u);
        }
      }
    case Delete(f) =>
      forall u: Token ensures LeaseInv(s', u) {
        assert LeaseInv(s, u);
        LeaseFrame(s, s', u);
      }
    case RemoveDir(t) =>
      forall u: Token ensures LeaseInv(s', u) {
        RemoveDirKeeps(s, t, u);
      }
  }

  lemma RemoveDirKeeps(s: System, t: Token, u: Token)
    requires LeaseInv(s, u)
    ensures LeaseInv(Next(s, RemoveDir(t)), u)
  {
    var s' := Next(s, RemoveDir(t));
    if !(u == t && MayRemoveDir(s, t)) {
      LeaseFrame(s, s', u);
    }
  }

  lemma {:induction false} RunKeeps(s: System, steps: seq<Step>)
    requires Inv(s)
    ensures Inv(Run(s, steps))
    decreases |steps|
  {
    if steps != [] {
      StepKeeps(s, steps[0]);
      RunKeeps(Next(s, steps[0]), steps[1..]);
    }
  }

  function Fresh(leaseMs: real): System {
    System(Disk(leaseMs, None, 0, map[]), map[], map[])
  }

  /** States that some run from an empty lock path reaches. */
  ghost predicate Reached(leaseMs: real, s: System) {
    exists steps: seq<Step> :: s == Run(Fresh(leaseMs), steps)
  }

  lemma ReachedIsOk(leaseMs: real, s: System)
    requires Reached(leaseMs, s)
    ensures Inv(s)
  {
    var steps: seq<Step> :| s == Run(Fresh(leaseMs), steps);
    RunKeeps(Fresh(leaseMs), steps);
  }

  /**
   * Fencing: a verified claim of a lease's owner file proves that the lease was not refreshed between
   * the attempt's look at the file (`seen`), its claim (`since`) and now.
   */
  lemma VerifiedClaimFences(leaseMs: real, s: System, r: Attempt, t: Token)
    requires Reached(leaseMs, s) && r in s.recoverers && s.recoverers[r].Won? && s.recoverers[r].file == OwnerFile(t)
    ensures t in s.leases && s.leases[t].ended == [Recovered(r)]
    ensures s.recoverers[r].before.stat.file == OwnerFile(t)
    ensures s.recoverers[r].before.stat.seen == s.recoverers[r].since == s.leases[t].refreshes
  {
    ReachedIsOk(leaseMs, s);
    assert LeaseInv(s, t) && RecovererOk(t, ViewOf(s, t), r, s.recoverers[r]);
  }

  /** Each lease is ended at most once, by its own release or by one attempt, and by no other attempt. */
  lemma EndedOnce(leaseMs: real, s: System, t: Token)
    requires Reached(leaseMs, s) && t in s.leases
    ensures |s.leases[t].ended| <= 1
    ensures forall r | r in s.recoverers && s.recoverers[r].Won? && s.recoverers[r].file == OwnerFile(t) ::
      s.leases[t].ended == [Recovered(r)]
  {
    ReachedIsOk(leaseMs, s);
    assert LeaseInv(s, t);
    forall r | r in s.recoverers && s.recoverers[r].Won? && s.recoverers[r].file == OwnerFile(t)
      ensures s.leases[t].ended == [Recovered(r)] {
      assert RecovererOk(t, ViewOf(s, t), r, s.recoverers[r]);
    }
  }

  ghost predicate SameEnd(s: System, s': System, t: Token)
    requires t in s.leases
  {
    t in s'.leases && s'.leases[t].ended == s.leases[t].ended && s'.leases[t].refreshes == s.leases[t].refreshes
  }

  lemma EndedHolder(s: System, u: Token, h: HolderStep, t: Token)
    requires MayHold(s, u, h) && t in s.leases && LeaseOk(t, ViewOf(s, t)) && s.leases[t].ended != []
    ensures SameEnd(s, HolderNext(s, u, h), t)
  {
  }

  lemma EndedRecoverer(s: System, r: Attempt, c: RecovererStep, t: Token)
    requires MayRecover(s, r, c) && t in s.leases && s.leases[t].ended != []
    requires r in s.recoverers ==> RecovererOk(t, ViewOf(s, t), r, s.recoverers[r])
    ensures SameEnd(s, RecovererNext(s, r, c), t)
  {
  }

  lemma EndedStep(s: System, step: Step, t: Token)
    requires Inv(s) && t in s.leases && s.leases[t].ended != []
    ensures SameEnd(s, Next(s, step), t)
  {
    assert LeaseInv(s, t);
    match step
    case Holder(u, h) =>
      if MayHold(s, u, h) {
        EndedHolder(s, u, h, t);
      }
    case Recoverer(r, c) =>
      if MayRecover(s, r, c) {
        EndedRecoverer(s, r, c, t);
      }
    case _ =>
  }

  /** Once a lease has ended no refresh of it ever succeeds again, whoever runs on. */
  lemma {:induction false} EndedForGood(s: System, steps: seq<Step>, t: Token)
    requires Inv(s) && t in s.leases && s.leases[t].ended != []
    ensures var s' := Run(s, steps);
      t in s'.leases && s'.leases[t].ended == s.leases[t].ended && s'.leases[t].refreshes == s.leases[t].refreshes
    decreases |steps|
  {
    if steps != [] {
      StepKeeps(s, steps[0]);
      EndedStep(s, steps[0], t);
      EndedForGood(Next(s, steps[0]), steps[1..], t);
    }
  }

  /** The two together: from the look on, a lease that an attempt has ended is never refreshed again. */
  lemma RecoveredForGood(leaseMs: real, s: System, r: Attempt, t: Token, steps: seq<Step>)
    requires Reached(leaseMs, s) && r in s.recoverers && s.recoverers[r].Won? && s.recoverers[r].file == OwnerFile(t)
    ensures var s' := Run(s, steps);
      && t in s'.leases && s'.leases[t].ended == [Recovered(r)]
      && s'.leases[t].refreshes == s.recoverers[r].before.stat.seen
  {
    VerifiedClaimFences(leaseMs, s, r, t);
    ReachedIsOk(leaseMs, s);
    EndedForGood(s, steps, t);
  }

  // ----- mutual exclusion -----------------------------------------------------

  /** Directories are numbered as they are made, so no two leases made the same one. */
  ghost predicate DirsOk(s: System) {
    && (s.disk.dirAt.Some? ==> s.disk.dirAt.value < s.disk.nextDir)
    && (forall f | f in s.disk.files :: s.disk.files[f].dir < s.disk.nextDir)
    && (forall t | t in s.leases :: s.leases[t].made < s.disk.nextDir)
    && (forall t, u | t in s.leases && u in s.leases && t != u :: s.leases[t].made != s.leases[u].made)
  }

  lemma HolderKeepsDirs(s: System, t: Token, step: HolderStep)
    requires MayHold(s, t, step) && DirsOk(s)
    ensures DirsOk(HolderNext(s, t, step))
  {
  }

  lemma RecovererKeepsDirs(s: System, r: Attempt, step: RecovererStep)
    requires MayRecover(s, r, step) && DirsOk(s)
    ensures DirsOk(RecovererNext(s, r, step))
  {
  }

  lemma StepKeepsDirs(s: System, step: Step)
    requires DirsOk(s)
    ensures DirsOk(Next(s, step))
  {
    match step
    case Holder(t, h) =>
      if MayHold(s, t, h) {
        HolderKeepsDirs(s, t, h);
      }
    case Recoverer(r, c) =>
      if MayRecover(s, r, c) {
        RecovererKeepsDirs(s, r, c);
      }
    case _ =>
  }

  lemma {:induction false} RunKeepsDirs(s: System, steps: seq<Step>)
    requires DirsOk(s)
    ensures DirsOk(Run(s, steps))
    decreases |steps|
  {
    if steps != [] {
      StepKeepsDirs(s, steps[0]);
      RunKeepsDirs(Next(s, steps[0]), steps[1..]);
    }
  }

  lemma ReachedDirs(leaseMs: real, s: System)
    requires Reached(leaseMs, s)
    ensures DirsOk(s)
  {
    var steps: seq<Step> :| s == Run(Fresh(leaseMs), steps);
    RunKeepsDirs(Fresh(leaseMs), steps);
  }

  /** The lease's owner file stands under its name in the directory at the lock path. */
  predicate Stands(s: System, t: Token) {
    At(s.disk, OwnerFile(t), OwnerName(t))
  }

  predicate Refreshable(s: System, t: Token) {
    May(s, t) && !s.leases[t].released && Stands(s, t)
  }

  /** The owner file is in a directory its creator did not make: it stalled after making its own. */
  predicate Strays(s: System, t: Token)
    requires t in s.leases
  {
    OwnerFile(t) in s.disk.files && s.disk.files[OwnerFile(t)].dir != s.leases[t].made
  }

  /** Two leases stand together only if the owner file of one of them landed in another's directory. */
  lemma TwoStandOnlyIfOneStrays(leaseMs: real, s: System, t: Token, u: Token)
    requires Reached(leaseMs, s) && t in s.leases && u in s.leases && t != u && Stands(s, t) && Stands(s, u)
    ensures Strays(s, t) || Strays(s, u)
  {
    ReachedDirs(leaseMs, s);
  }

  /** The step is a creator writing its owner file although the directory it made is no longer there. */
  ghost predicate StrayCreation(s: System, step: Step) {
    step.Holder? && step.holding.CreateOwner? && MayHold(s, step.t, step.holding)
    && s.disk.dirAt != Some(s.leases[step.t].made)
  }

  ghost predicate NoneStrays(s: System) {
    forall t | t in s.leases :: !Strays(s, t)
  }

  /** Exactly a stray creation makes the first stray. */
  lemma StrayArisesIff(s: System, step: Step)
    requires Inv(s) && NoneStrays(s)
    ensures NoneStrays(Next(s, step)) <==> !StrayCreation(s, step)
  {
    var s' := Next(s, step);
    if StrayCreation(s, step) {
      assert Strays(s', step.t);
    } else {
      forall t | t in s'.leases ensures !Strays(s', t) {
        NotStrayAfter(s, step, t);
      }
    }
  }

  /** The owner file is where it was, if it is there, and the lease made the same directory. */
  ghost predicate SamePlace(s: System, s': System, t: Token) {
    && (OwnerFile(t) in s'.disk.files ==>
          OwnerFile(t) in s.disk.files && s'.disk.files[OwnerFile(t)].dir == s.disk.files[OwnerFile(t)].dir)
    && (t in s'.leases ==> t in s.leases && s'.leases[t].made == s.leases[t].made)
  }

  lemma RecovererKeepsPlace(s: System, r: Attempt, c: RecovererStep, t: Token)
    requires MayRecover(s, r, c)
    ensures SamePlace(s, RecovererNext(s, r, c), t)
  {
  }

  lemma HolderKeepsPlace(s: System, u: Token, h: HolderStep, t: Token)
    requires MayHold(s, u, h) && !h.CreateOwner? && !h.MakeDir?
    ensures SamePlace(s, HolderNext(s, u, h), t)
  {
  }

  lemma NotStrayAfter(s: System, step: Step, t: Token)
    requires Inv(s) && !StrayCreation(s, step) && t in Next(s, step).leases && (t in s.leases ==> !Strays(s, t))
    ensures !Strays(Next(s, step), t)
  {
    match step
    case Holder(u, h) =>
      if MayHold(s, u, h) {
        if h.CreateOwner? || h.MakeDir? {
          NotStrayAfterNew(s, u, h, t);
        } else {
          HolderKeepsPlace(s, u, h, t);
        }
      }
    case Recoverer(r, c) =>
      if MayRecover(s, r, c) {
        RecovererKeepsPlace(s, r, c, t);
      }
    case Delete(f) =>
    case RemoveDir(u) =>
  }

  lemma NotStrayAfterNew(s: System, u: Token, h: HolderStep, t: Token)
    requires MayHold(s, u, h) && (h.CreateOwner? || h.MakeDir?) && !StrayCreation(s, Holder(u, h))
    requires LeaseInv(s, t) && t in HolderNext(s, u, h).leases && (t in s.leases ==> !Strays(s, t))
    ensures !Strays(HolderNext(s, u, h), t)
  {
  }

  ghost predicate NoStrayCreation(s: System, steps: seq<Step>)
    decreases |steps|
  {
    steps == [] || (!StrayCreation(s, steps[0]) && NoStrayCreation(Next(s, steps[0]), steps[1..]))
  }

  lemma {:induction false} RunsWithoutStrays(s: System, steps: seq<Step>)
    requires Inv(s) && NoneStrays(s) && NoStrayCreation(s, steps)
    ensures NoneStrays(Run(s, steps))
    decreases |steps|
  {
    if steps != [] {
      StepKeeps(s, steps[0]);
      StrayArisesIff(s, steps[0]);
      RunsWithoutStrays(Next(s, steps[0]), steps[1..]);
    }
  }

  /** Some run leads here in which each creator, writing its owner file, finds the directory it made. */
  ghost predicate ReachedWithoutStrays(leaseMs: real, s: System) {
    exists steps: seq<Step> :: s == Run(Fresh(leaseMs), steps) && NoStrayCreation(Fresh(leaseMs), steps)
  }

  lemma WithoutStraysNone(leaseMs: real, s: System)
    requires ReachedWithoutStrays(leaseMs, s)
    ensures Reached(leaseMs, s) && NoneStrays(s)
  {
    var steps: seq<Step> :| s == Run(Fresh(leaseMs), steps) && NoStrayCreation(Fresh(leaseMs), steps);
    RunsWithoutStrays(Fresh(leaseMs), steps);
  }

  /** In such a run at most one owner file ever stands, so at most one lease can be refreshed. */
  lemma ExclusiveWithoutStrays(leaseMs: real, s: System, t: Token, u: Token)
    requires ReachedWithoutStrays(leaseMs, s) && t in s.leases && u in s.leases && t != u
    ensures !(Stands(s, t) && Stands(s, u))
    ensures !(Refreshable(s, t) && Refreshable(s, u))
  {
    WithoutStraysNone(leaseMs, s);
    if Stands(s, t) && Stands(s, u) {
      TwoStandOnlyIfOneStrays(leaseMs, s, t, u);
    }
  }

  /** The lease whose owner file a step puts, or puts back, into the directory at the lock path. */
  ghost function Arrives(s: System, step: Step): Option<Token> {
    match step
    case Holder(t, h) => if h.CreateOwner? && MayHold(s, t, h) then Some(t) else None
    case Recoverer(r, c) =>
      if c.Restore? && MayRecover(s, r, c) && s.recoverers[r].file.OwnerFile?
      then Some(s.recoverers[r].file.token) else None
    case _ => None
  }

  ghost predicate OneStands(s: System) {
    forall t: Token, u: Token | Stands(s, t) && Stands(s, u) :: t == u
  }

  /** Only by arriving does a lease come to stand, and an arrival moves no other. */
  lemma StandsAfter(s: System, step: Step, t: Token)
    requires NamesOk(s) && DirsOk(s)
    ensures Stands(Next(s, step), t) ==> Stands(s, t) || Arrives(s, step) == Some(t)
    ensures Arrives(s, step) == Some(t) ==> Stands(Next(s, step), t)
    ensures Arrives(s, step).Some? && Stands(s, t) ==> Stands(Next(s, step), t)
  {
    match step
    case Holder(u, h) =>
    case Recoverer(r, c) =>
      if c.Restore? && r in s.recoverers {
        assert PathOk(s.recoverers[r]);
      }
    case Delete(f) =>
    case RemoveDir(u) =>
  }

  /** A second owner file stands exactly after one is created, or put back, while another stands. */
  lemma SecondStandsIff(s: System, step: Step)
    requires NamesOk(s) && DirsOk(s) && OneStands(s)
    ensures !OneStands(Next(s, step)) <==>
      Arrives(s, step).Some? && exists u: Token :: u != Arrives(s, step).value && Stands(s, u)
  {
    forall t: Token ensures Stands(Next(s, step), t) ==> Stands(s, t) || Arrives(s, step) == Some(t) {
      StandsAfter(s, step, t);
    }
    if Arrives(s, step).Some? {
      StandsAfter(s, step, Arrives(s, step).value);
      forall u: Token | Stands(s, u) ensures Stands(Next(s, step), u) {
        StandsAfter(s, step, u);
      }
    }
  }

  lemma OneStandsWithoutStrays(leaseMs: real, s: System)
    requires Reached(leaseMs, s) && NoneStrays(s)
    ensures OneStands(s)
  {
    ReachedIsOk(leaseMs, s);
    forall t: Token, u: Token | Stands(s, t) && Stands(s, u) ensures t == u {
      assert LeaseInv(s, t) && LeaseInv(s, u);
      if t != u {
        TwoStandOnlyIfOneStrays(leaseMs, s, t, u);
      }
    }
  }

  /**
   * The exact condition: while no owner file strays, a step makes a second one stand if and only if its
   * creator writes it although the directory it made has gone from the lock path and an owner stands in
   * the one now there.
   */
  lemma ExclusionLostIff(leaseMs: real, s: System, step: Step)
    requires Reached(leaseMs, s) && NoneStrays(s)
    ensures !OneStands(Next(s, step)) <==> StrayCreation(s, step) && exists u: Token :: Stands(s, u)
  {
    ReachedIsOk(leaseMs, s);
    ReachedDirs(leaseMs, s);
    OneStandsWithoutStrays(leaseMs, s);
    SecondStandsIff(s, step);
    if StrayCreation(s, step) {
      assert LeaseInv(s, step.t);
      assert !Stands(s, step.t);
    } else {
      StrayArisesIff(s, step);
      ReachedNext(leaseMs, s, step);
      OneStandsWithoutStrays(leaseMs, Next(s, step));
    }
  }

  // ----- what only refreshing promises ----------------------------------------

  /** The holder has not released the lease and knows of no failure: it goes on under the lock. */
  predicate Holds(s: System, t: Token) {
    May(s, t) && !s.leases[t].released
  }

  /** The owner file, created before, is not in the directory at the lock path. */
  predicate Evicted(s: System, t: Token) {
    && t in s.leases && !s.leases[t].phase.Making?
    && (OwnerFile(t) in s.disk.files ==> s.disk.dirAt != Some(s.disk.files[OwnerFile(t)].dir))
  }

  ghost predicate StaysEvicted(s: System, s': System, t: Token)
    requires t in s.leases
  {
    Evicted(s', t) && s'.leases[t].refreshes == s.leases[t].refreshes
  }

  lemma EvictedHolder(s: System, u: Token, h: HolderStep, t: Token)
    requires MayHold(s, u, h) && DirsOk(s) && Evicted(s, t)
    ensures StaysEvicted(s, HolderNext(s, u, h), t)
  {
  }

  lemma EvictedRecoverer(s: System, r: Attempt, c: RecovererStep, t: Token)
    requires MayRecover(s, r, c) && Evicted(s, t)
    ensures StaysEvicted(s, RecovererNext(s, r, c), t)
  {
  }

  lemma EvictedStep(s: System, step: Step, t: Token)
    requires DirsOk(s) && Evicted(s, t)
    ensures StaysEvicted(s, Next(s, step), t)
  {
    match step
    case Holder(u, h) =>
      if MayHold(s, u, h) {
        EvictedHolder(s, u, h, t);
      }
    case Recoverer(r, c) =>
      if MayRecover(s, r, c) {
        EvictedRecoverer(s, r, c, t);
      }
    case _ =>
  }

  /** No directory comes back to the lock path: an evicted lease is never refreshed again. */
  lemma {:induction false} EvictedForGood(s: System, steps: seq<Step>, t: Token)
    requires DirsOk(s) && Evicted(s, t)
    ensures Evicted(Run(s, steps), t) && Run(s, steps).leases[t].refreshes == s.leases[t].refreshes
    decreases |steps|
  {
    if steps != [] {
      EvictedStep(s, steps[0], t);
      StepKeepsDirs(s, steps[0]);
      EvictedForGood(Next(s, steps[0]), steps[1..], t);
    }
  }

  /** Two leases made two directories, and only one directory is at the lock path. */
  lemma OneIsEvicted(s: System, t: Token, u: Token)
    requires DirsOk(s) && NoneStrays(s) && t in s.leases && u in s.leases && t != u
    requires !s.leases[t].phase.Making? && !s.leases[u].phase.Making?
    ensures Evicted(s, t) || Evicted(s, u)
  {
    assert !Strays(s, t) && !Strays(s, u);
  }

  /**
   * Only refreshing is fenced: of two leases held at once in a run without strays one is evicted, so it
   * can be held on but, by `EvictedForGood`, never refreshed again.
   */
  lemma OneOfTwoHoldersIsEvicted(leaseMs: real, s: System, t: Token, u: Token)
    requires ReachedWithoutStrays(leaseMs, s) && Holds(s, t) && Holds(s, u) && t != u
    ensures Evicted(s, t) || Evicted(s, u)
  {
    WithoutStraysNone(leaseMs, s);
    ReachedDirs(leaseMs, s);
    OneIsEvicted(s, t, u);
  }

  ghost predicate OneHolds(s: System) {
    forall t: Token, u: Token | Holds(s, t) && Holds(s, u) :: t == u
  }

  /** The step completes an owner file while another lease is held, one of the two being evicted. */
  ghost predicate CompletesBeside(s: System, step: Step) {
    && step.Holder? && step.holding.WriteOwner? && MayHold(s, step.t, step.holding)
    && exists u: Token :: Holds(s, u) && (Evicted(s, u) || Evicted(s, step.t))
  }

  lemma HeldByWriting(s: System, u: Token, h: HolderStep, t: Token)
    requires MayHold(s, u, h)
    ensures Holds(HolderNext(s, u, h), t) ==> Holds(s, t) || (u == t && h.WriteOwner?)
    ensures h.WriteOwner? && LeaseInv(s, u) ==> Holds(HolderNext(s, u, h), u)
    ensures h.WriteOwner? && Holds(s, t) ==> t != u && Holds(HolderNext(s, u, h), t)
  {
  }

  lemma HeldStays(s: System, r: Attempt, c: RecovererStep, t: Token)
    requires MayRecover(s, r, c)
    ensures Holds(RecovererNext(s, r, c), t) ==> Holds(s, t)
  {
  }

  /** Only a creator that completes its owner file comes to hold. */
  lemma HeldAfter(s: System, step: Step, t: Token)
    ensures Holds(Next(s, step), t) ==>
      Holds(s, t) || (step.Holder? && step.t == t && step.holding.WriteOwner? && MayHold(s, t, step.holding))
  {
    match step
    case Holder(u, h) =>
      if MayHold(s, u, h) {
        HeldByWriting(s, u, h, t);
      }
    case Recoverer(r, c) =>
      if MayRecover(s, r, c) {
        HeldStays(s, r, c, t);
      }
    case _ =>
  }

  /** The exact condition for a second lease to be held. */
  lemma SecondHoldsIff(leaseMs: real, s: System, step: Step)
    requires Reached(leaseMs, s) && NoneStrays(s) && OneHolds(s)
    ensures !OneHolds(Next(s, step)) <==> CompletesBeside(s, step)
  {
    ReachedIsOk(leaseMs, s);
    ReachedDirs(leaseMs, s);
    var s' := Next(s, step);
    if CompletesBeside(s, step) {
      var u: Token :| Holds(s, u) && (Evicted(s, u) || Evicted(s, step.t));
      assert LeaseInv(s, step.t);
      HeldByWriting(s, step.t, step.holding, u);
    } else if !OneHolds(s') {
      var t: Token, u: Token :| Holds(s', t) && Holds(s', u) && t != u;
      HeldAfter(s, step, t);
      HeldAfter(s, step, u);
      OneIsEvicted(s, t, u);
    }
  }

  // ----- what the lock does not promise --------------------------------------

  lemma {:induction false} RunAppend(s: System, steps: seq<Step>, step: Step)
    ensures Run(s, steps + [step]) == Next(Run(s, steps), step)
    decreases |steps|
  {
    if steps == [] {
      assert [step][1..] == [];
    } else {
      assert (steps + [step])[1..] == steps[1..] + [step];
      RunAppend(Next(s, steps[0]), steps[1..], step);
    }
  }

  lemma ReachedNext(leaseMs: real, s: System, step: Step)
    requires Reached(leaseMs, s)
    ensures Reached(leaseMs, Next(s, step))
  {
    var steps: seq<Step> :| s == Run(Fresh(leaseMs), steps);
    RunAppend(Fresh(leaseMs), steps, step);
  }

  /** A lock whose creator made the directory and stalled, met by attempt 0. */
  function Stalled(leaseMs: real, dirAt: Option<nat>, files: map<FileId, File>, recoverer: Recoverer): System {
    System(Disk(leaseMs, dirAt, 1, files), map[0 := Lease(Making, None, false, false, 0, 0, None, [])],
      map[0 := recoverer])
  }

  const ENTRY: map<FileId, File> := map[RecoveryFile(0) := File(0, RecoveryName, 0.0, true)]

  lemma StalledIsMet(leaseMs: real)
    ensures Reached(leaseMs, Stalled(leaseMs, Some(0), map[], Ownerless(0)))
  {
    assert Run(Fresh(leaseMs), []) == Fresh(leaseMs);
    ReachedNext(leaseMs, Fresh(leaseMs), Holder(0, MakeDir));
    var s := Next(Fresh(leaseMs), Holder(0, MakeDir));
    ReachedNext(leaseMs, s, Recoverer(0, LookEmpty));
    assert Next(s, Recoverer(0, LookEmpty)) == Stalled(leaseMs, Some(0), map[], Unowned);
    ReachedNext(leaseMs, Stalled(leaseMs, Some(0), map[], Unowned), Recoverer(0, StatDir));
  }

  lemma StalledIsEntered(leaseMs: real)
    ensures Reached(leaseMs, Stalled(leaseMs, Some(0), ENTRY, Compared))
  {
    StalledIsMet(leaseMs);
    var s := Stalled(leaseMs, Some(0), map[], Ownerless(0));
    ReachedNext(leaseMs, s, Recoverer(0, EnterEmpty(0.0)));
    assert Next(s, Recoverer(0, EnterEmpty(0.0))) == Stalled(leaseMs, Some(0), ENTRY, Entered(0));
    ReachedNext(leaseMs, Stalled(leaseMs, Some(0), ENTRY, Entered(0)), Recoverer(0, CompareDir));
  }

  /** The attempt finds no owner. */
  lemma StalledIsWon(leaseMs: real)
    ensures Reached(leaseMs, Stalled(leaseMs, Some(0), ENTRY, WonEmpty))
  {
    StalledIsEntered(leaseMs);
    ReachedNext(leaseMs, Stalled(leaseMs, Some(0), ENTRY, Compared), Recoverer(0, CheckEmpty));
  }

  /** It moves the directory away. */
  lemma StalledIsMoved(leaseMs: real)
    ensures Reached(leaseMs, Stalled(leaseMs, None, ENTRY, Finished))
  {
    StalledIsWon(leaseMs);
    ReachedNext(leaseMs, Stalled(leaseMs, Some(0), ENTRY, WonEmpty), Recoverer(0, MoveDir));
  }

  /** The next holder makes the directory again and writes its owner file. */
  lemma SuccessorHolds(leaseMs: real) returns (s: System)
    ensures Reached(leaseMs, s) && Refreshable(s, 1) && OwnerFile(0) !in s.disk.files
    ensures 0 in s.leases && s.leases[0] == Lease(Making, None, false, false, 0, 0, None, [])
  {
    StalledIsMoved(leaseMs);
    s := Stalled(leaseMs, None, ENTRY, Finished);
    ReachedNext(leaseMs, s, Holder(1, MakeDir));
    s := Next(s, Holder(1, MakeDir));
    ReachedNext(leaseMs, s, Holder(1, CreateOwner(0.0)));
    s := Next(s, Holder(1, CreateOwner(0.0)));
    ReachedNext(leaseMs, s, Holder(1, WriteOwner(0.0)));
    s := Next(s, Holder(1, WriteOwner(0.0)));
  }

  /**
   * No mutual exclusion: the stalled creator writes its owner file into its successor's directory, and
   * then two leases can both be refreshed.
   */
  lemma TwoLeasesCanCoexist(leaseMs: real)
    ensures exists s :: Reached(leaseMs, s) && Refreshable(s, 0) && Refreshable(s, 1)
  {
    var s := SuccessorHolds(leaseMs);
    ReachedNext(leaseMs, s, Holder(0, CreateOwner(0.0)));
    s := Next(s, Holder(0, CreateOwner(0.0)));
    ReachedNext(leaseMs, s, Holder(0, WriteOwner(0.0)));
    s := Next(s, Holder(0, WriteOwner(0.0)));
    assert Refreshable(s, 0) && Refreshable(s, 1);
  }

  /** A lease that its holder keeps, and the directory it made. */
  function HeldLease(dir: nat, holder: Option<Attempt>, ended: seq<Ender>): Lease {
    Lease(Held, None, false, false, dir, 0, holder, ended)
  }

  /** Lease 0 is held, and attempt 0 is about its owner file. */
  function Met(leaseMs: real, dirAt: Option<nat>, name: Name, lease: Lease, recoverer: Recoverer): System {
    System(Disk(leaseMs, dirAt, 1, map[OwnerFile(0) := File(0, name, 0.0, true)]),
      map[0 := lease], map[0 := recoverer])
  }

  lemma NextWithoutStrays(leaseMs: real, s: System, step: Step)
    requires ReachedWithoutStrays(leaseMs, s) && !StrayCreation(s, step)
    ensures ReachedWithoutStrays(leaseMs, Next(s, step))
  {
    var steps: seq<Step> :| s == Run(Fresh(leaseMs), steps) && NoStrayCreation(Fresh(leaseMs), steps);
    RunAppend(Fresh(leaseMs), steps, step);
    StraysAppend(Fresh(leaseMs), steps, step);
  }

  lemma {:induction false} StraysAppend(s: System, steps: seq<Step>, step: Step)
    requires NoStrayCreation(s, steps) && !StrayCreation(Run(s, steps), step)
    ensures NoStrayCreation(s, steps + [step])
    decreases |steps|
  {
    if steps == [] {
      assert [step][1..] == [];
    } else {
      assert (steps + [step])[1..] == steps[1..] + [step];
      StraysAppend(Next(s, steps[0]), steps[1..], step);
    }
  }

  const SEEN: Snapshot := Snapshot(Some(OwnerFile(0)), Stat(OwnerFile(0), 0.0, true, 0))

  /** Lease 0 is acquired and attempt 0 sees its owner file. */
  lemma HolderIsSeen(leaseMs: real)
    ensures ReachedWithoutStrays(leaseMs,
      Met(leaseMs, Some(0), OwnerName(0), HeldLease(0, None, []), Reading(OwnerName(0), None, None)))
  {
    assert Run(Fresh(leaseMs), []) == Fresh(leaseMs) && NoStrayCreation(Fresh(leaseMs), []);
    var s := Fresh(leaseMs);
    NextWithoutStrays(leaseMs, s, Holder(0, MakeDir));
    s := Next(s, Holder(0, MakeDir));
    NextWithoutStrays(leaseMs, s, Holder(0, CreateOwner(0.0)));
    s := Next(s, Holder(0, CreateOwner(0.0)));
    NextWithoutStrays(leaseMs, s, Holder(0, WriteOwner(0.0)));
    s := Next(s, Holder(0, WriteOwner(0.0)));
    assert At(s.disk, OwnerFile(0), OwnerName(0));
    NextWithoutStrays(leaseMs, s, Recoverer(0, Look(OwnerName(0))));
    s := Next(s, Recoverer(0, Look(OwnerName(0))));
    assert s == Met(leaseMs, Some(0), OwnerName(0), HeldLease(0, None, []), Reading(OwnerName(0), None, None));
  }

  /** Its heartbeat is late, so the attempt judges it stale. */
  lemma HolderIsJudged(leaseMs: real)
    ensures ReachedWithoutStrays(leaseMs,
      Met(leaseMs, Some(0), OwnerName(0), HeldLease(0, None, []), Stale(OwnerName(0), SEEN)))
  {
    HolderIsSeen(leaseMs);
    var s := Met(leaseMs, Some(0), OwnerName(0), HeldLease(0, None, []), Reading(OwnerName(0), None, None));
    NextWithoutStrays(leaseMs, s, Recoverer(0, ReadContents(OwnerFile(0))));
    s := Next(s, Recoverer(0, ReadContents(OwnerFile(0))));
    NextWithoutStrays(leaseMs, s, Recoverer(0, ReadStat(OwnerFile(0))));
    s := Next(s, Recoverer(0, ReadStat(OwnerFile(0))));
    NextWithoutStrays(leaseMs, s, Recoverer(0, Judge(leaseMs, false)));
    s := Next(s, Recoverer(0, Judge(leaseMs, false)));
    assert s == Met(leaseMs, Some(0), OwnerName(0), HeldLease(0, None, []), Stale(OwnerName(0), SEEN));
  }

  /** The attempt claims the file. */
  lemma HolderIsClaimed(leaseMs: real)
    ensures ReachedWithoutStrays(leaseMs,
      Met(leaseMs, Some(0), ClaimedName(0), HeldLease(0, Some(0), []),
        Checking(OwnerName(0), SEEN, OwnerFile(0), 0, None, None)))
  {
    HolderIsJudged(leaseMs);
    var s := Met(leaseMs, Some(0), OwnerName(0), HeldLease(0, None, []), Stale(OwnerName(0), SEEN));
    NextWithoutStrays(leaseMs, s, Recoverer(0, Claim(OwnerFile(0))));
    s := Next(s, Recoverer(0, Claim(OwnerFile(0))));
    assert s == Met(leaseMs, Some(0), ClaimedName(0), HeldLease(0, Some(0), []),
      Checking(OwnerName(0), SEEN, OwnerFile(0), 0, None, None));
  }

  /** It finds the file unchanged. */
  lemma HolderIsChecked(leaseMs: real)
    ensures ReachedWithoutStrays(leaseMs,
      Met(leaseMs, Some(0), ClaimedName(0), HeldLease(0, Some(0), []),
        Checking(OwnerName(0), SEEN, OwnerFile(0), 0, Some(SEEN.contents), Some(SEEN.stat))))
  {
    HolderIsClaimed(leaseMs);
    var s := Met(leaseMs, Some(0), ClaimedName(0), HeldLease(0, Some(0), []),
      Checking(OwnerName(0), SEEN, OwnerFile(0), 0, None, None));
    NextWithoutStrays(leaseMs, s, Recoverer(0, CheckContents));
    s := Next(s, Recoverer(0, CheckContents));
    NextWithoutStrays(leaseMs, s, Recoverer(0, CheckStat));
    s := Next(s, Recoverer(0, CheckStat));
    assert s == Met(leaseMs, Some(0), ClaimedName(0), HeldLease(0, Some(0), []),
      Checking(OwnerName(0), SEEN, OwnerFile(0), 0, Some(SEEN.contents), Some(SEEN.stat)));
  }

  /** It wins and moves the directory away; the holder of lease 0 knows nothing of it. */
  lemma HolderIsRecovered(leaseMs: real)
    ensures ReachedWithoutStrays(leaseMs,
      Met(leaseMs, None, ClaimedName(0), HeldLease(0, Some(0), [Recovered(0)]), Won(SEEN, OwnerFile(0), 0, true)))
  {
    HolderIsChecked(leaseMs);
    var s := Met(leaseMs, Some(0), ClaimedName(0), HeldLease(0, Some(0), []),
      Checking(OwnerName(0), SEEN, OwnerFile(0), 0, Some(SEEN.contents), Some(SEEN.stat)));
    NextWithoutStrays(leaseMs, s, Recoverer(0, Verify));
    assert [] + [Recovered(0)] == [Recovered(0)];
    s := Next(s, Recoverer(0, Verify));
    assert s == Met(leaseMs, Some(0), ClaimedName(0), HeldLease(0, Some(0), [Recovered(0)]),
      Won(SEEN, OwnerFile(0), 0, false));
    NextWithoutStrays(leaseMs, s, Recoverer(0, MoveDir));
    s := Next(s, Recoverer(0, MoveDir));
    assert s == Met(leaseMs, None, ClaimedName(0), HeldLease(0, Some(0), [Recovered(0)]),
      Won(SEEN, OwnerFile(0), 0, true));
  }

  /**
   * Recovery does not stop a holder: without any stray owner file, a holder whose lease was recovered and
   * its successor can both hold, each with an unreleased lease and no failure.
   */
  lemma TwoHoldWithoutStrays(leaseMs: real)
    ensures exists s :: ReachedWithoutStrays(leaseMs, s) && Holds(s, 0) && Holds(s, 1)
  {
    HolderIsRecovered(leaseMs);
    var s := Met(leaseMs, None, ClaimedName(0), HeldLease(0, Some(0), [Recovered(0)]),
      Won(SEEN, OwnerFile(0), 0, true));
    NextWithoutStrays(leaseMs, s, Holder(1, MakeDir));
    s := Next(s, Holder(1, MakeDir));
    NextWithoutStrays(leaseMs, s, Holder(1, CreateOwner(0.0)));
    s := Next(s, Holder(1, CreateOwner(0.0)));
    NextWithoutStrays(leaseMs, s, Holder(1, WriteOwner(0.0)));
    s := Next(s, Holder(1, WriteOwner(0.0)));
    assert Holds(s, 0) && Holds(s, 1);
  }
}
