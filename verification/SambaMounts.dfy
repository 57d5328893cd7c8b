/**
 The mount table of the network provider: four maps, an id counter and the mirror kept by
 SAFUtilityOperation, changed by mounting and ejecting, either of which may fail part way. Requests
 are handled one at a time by the dispatcher thread, so a run is a sequence of requests.
 */
module SambaMounts {
  import opened Wrappers
  import opened Strings
  import Paths

  const UNSIGNED_RANGE := 0x1_0000_0000

  /**
   `keys` is mSambaDriveMap (share key to drive id), `sessions` mSambaSessionData, `paths`
   mSambaPathMap, `mounted` mntpathmap, `mirror` mSambaDrivePathMap, `counter` the static id.
   */
  datatype Tables = Tables(
    keys: map<string, string>,
    sessions: map<string, string>,
    paths: map<string, string>,
    mounted: map<string, string>,
    mirror: map<string, string>,
    counter: nat)

  const INITIAL := Tables(map[], map[], map[], map[], map[], 0)

  /** A mount request, the clock text used in the mount path, and how the system calls go. */
  datatype MountRequest = MountRequest(
    ip: string,
    userName: Option<string>,
    password: Option<string>,
    sharePath: string,
    securityMode: Option<string>,
    session: string,
    timestamp: string,
    directoryMade: bool,
    mountSucceeds: bool)

  datatype MountReply =
    | NoUserName
    | NoPassword
    | NoSecurityMode
    | AlreadyMounted
    | NoDirectory
    | MountedAt(path: string)
    | UnableToMount(path: string)

  datatype EjectReply = InvalidDrive | EjectDone | UnableToEject | NotMounted

  function MountPath(r: MountRequest): string {
    "/tmp/" + r.ip + "_" + r.timestamp
  }

  function ShareKey(ip: string, userName: string, sharePath: string): string {
    ip + "_" + userName + "_" + sharePath
  }

  /** The share a complete request asks for. */
  function KeyOf(r: MountRequest): string
    requires r.userName.Some?
  {
    ShareKey(r.ip, r.userName.value, r.sharePath)
  }

  function DriveId(n: nat): string {
    "SAMBA_" + Decimal(n)
  }

  lemma DriveIdInjective(m: nat, n: nat)
    requires DriveId(m) == DriveId(n)
    ensures m == n
  {
    assert DriveId(m)[6..] == Decimal(m) && DriveId(n)[6..] == Decimal(n);
    DecimalInjective(m, n);
  }

  /** The unsigned increment of the static counter. */
  function NextCounter(n: nat): nat {
    (n + 1) % UNSIGNED_RANGE
  }

  /** `validateSambaOperation`. */
  predicate IsValid(t: Tables, drive: string, session: string) {
    drive in t.sessions && t.sessions[drive] == session
  }

  function MountReplyOf(t: Tables, r: MountRequest): MountReply {
    if r.userName.None? then NoUserName
    else if r.password.None? then NoPassword
    else if r.securityMode.None? then NoSecurityMode
    else if KeyOf(r) in t.keys then AlreadyMounted
    else if !r.directoryMade then NoDirectory
    else if MountPath(r) in t.mounted || r.mountSucceeds then MountedAt(MountPath(r))
    else UnableToMount(MountPath(r))
  }

  /** The drive is mirrored and its mount path begins the path. */
  predicate AcceptsPath(mirror: map<string, string>, drive: string, path: string) {
    drive in mirror && mirror[drive] <= path
  }

  /**
   Whether the request reaches a mount call that succeeds; a path already mounted is reported as mounted without one.
   */
  predicate Mounts(t: Tables, r: MountRequest) {
    MountReplyOf(t, r).MountedAt? && MountPath(r) !in t.mounted
  }

  function AfterMount(t: Tables, r: MountRequest): Tables {
    if !Mounts(t, r) then t
    else
      var n := NextCounter(t.counter);
      var drive := DriveId(n);
      var path := MountPath(r);
      var paths := t.paths[drive := path];
      Tables(t.keys[KeyOf(r) := drive], t.sessions[drive := r.session], paths,
             t.mounted[path := path], paths, n)
  }

  function EjectReplyOf(t: Tables, drive: string, session: string, umountSucceeds: bool): EjectReply {
    if !IsValid(t, drive, session) then InvalidDrive
    else if drive !in t.paths then NotMounted
    else if umountSucceeds then EjectDone
    else UnableToEject
  }

  /** The share key goes before the umount is tried, so it is gone even when the umount fails. */
  function AfterEject(t: Tables, drive: string, session: string, umountSucceeds: bool): Tables {
    if !IsValid(t, drive, session) then t
    else
      var t1 := t.(keys := EraseDrive(t.keys, drive));
      if EjectReplyOf(t, drive, session, umountSucceeds).EjectDone? then
        var paths := t.paths - {drive};
        t1.(mounted := t.mounted - {t.paths[drive]}, sessions := t.sessions - {drive}, paths := paths, mirror := paths)
      else t1
  }

  // ---------------------------------------------------------------------------------------------
  // What every request keeps
  // ---------------------------------------------------------------------------------------------

  ghost predicate Injective(m: map<string, string>) {
    forall a, b :: a in m && b in m && m[a] == m[b] ==> a == b
  }

  ghost predicate IdUpTo(drive: string, n: nat) {
    exists i: nat :: 1 <= i <= n && drive == DriveId(i)
  }

  /** Sessions and paths are known for the same drives, no two drives share a path, and the mounted paths are theirs. */
  ghost predicate PathsMatch(sessions: map<string, string>, paths: map<string, string>, mounted: map<string, string>) {
    && sessions.Keys == paths.Keys
    && Injective(paths)
    && (forall d :: d in paths ==> paths[d] in mounted)
    && (forall p :: p in mounted ==> mounted[p] == p && HasPath(paths, p))
  }

  ghost predicate HasPath(paths: map<string, string>, p: string) {
    exists d :: d in paths && paths[d] == p
  }

  /** Every share key leads to a live drive, different keys to different ones. */
  ghost predicate KeysMatch(keys: map<string, string>, sessions: map<string, string>) {
    Injective(keys) && forall k :: k in keys ==> keys[k] in sessions
  }

  ghost predicate IdsUsed(sessions: map<string, string>, counter: nat) {
    forall d :: d in sessions ==> IdUpTo(d, counter)
  }

  ghost predicate Inv(t: Tables) {
    && PathsMatch(t.sessions, t.paths, t.mounted)
    && KeysMatch(t.keys, t.sessions)
    && IdsUsed(t.sessions, t.counter)
    && t.mirror == t.paths
  }

  lemma FreshId(n: nat, m: nat)
    requires n < m
    ensures !IdUpTo(DriveId(m), n)
  {
    if IdUpTo(DriveId(m), n) {
      var i: nat :| 1 <= i <= n && DriveId(m) == DriveId(i);
      DriveIdInjective(m, i);
    }
  }

  lemma IdUpToGrows(drive: string, n: nat, m: nat)
    requires n <= m && IdUpTo(drive, n)
    ensures IdUpTo(drive, m)
  {
  }

  lemma InjectiveAdd(m: map<string, string>, k: string, v: string)
    requires Injective(m) && !HasPath(m, v)
    ensures Injective(m[k := v])
  {
  }

  lemma HasPathAdd(m: map<string, string>, k: string, v: string, p: string)
    requires k !in m
    ensures HasPath(m[k := v], p) <==> HasPath(m, p) || p == v
  {
    var m' := m[k := v];
    if HasPath(m, p) {
      var d :| d in m && m[d] == p;
      assert d in m' && m'[d] == p;
    }
    assert k in m' && m'[k] == v;
  }

  lemma PathsAdd(sessions: map<string, string>, paths: map<string, string>, mounted: map<string, string>,
                 drive: string, session: string, path: string)
    requires PathsMatch(sessions, paths, mounted)
    requires drive !in sessions && path !in mounted
    ensures PathsMatch(sessions[drive := session], paths[drive := path], mounted[path := path])
  {
    assert !HasPath(paths, path);
    InjectiveAdd(paths, drive, path);
    hide Injective, HasPath;
    var paths', mounted' := paths[drive := path], mounted[path := path];
    forall p | p in mounted'
      ensures HasPath(paths', p)
    {
      HasPathAdd(paths, drive, path, p);
    }
  }

  lemma PathsRemove(sessions: map<string, string>, paths: map<string, string>, mounted: map<string, string>,
                    drive: string)
    requires PathsMatch(sessions, paths, mounted)
    requires drive in paths
    ensures PathsMatch(sessions - {drive}, paths - {drive}, mounted - {paths[drive]})
  {
    forall p | p in mounted - {paths[drive]}
      ensures HasPath(paths - {drive}, p)
    {
      var d :| d in paths && paths[d] == p;
      assert d in paths - {drive} && (paths - {drive})[d] == p;
    }
  }

  lemma KeysAdd(keys: map<string, string>, sessions: map<string, string>, key: string, drive: string, session: string)
    requires KeysMatch(keys, sessions)
    requires drive !in sessions
    ensures KeysMatch(keys[key := drive], sessions[drive := session])
  {
  }

  function EraseDrive(keys: map<string, string>, drive: string): map<string, string> {
    map k | k in keys && keys[k] != drive :: keys[k]
  }

  lemma KeysRemove(keys: map<string, string>, sessions: map<string, string>, drive: string)
    requires KeysMatch(keys, sessions)
    ensures KeysMatch(EraseDrive(keys, drive), sessions - {drive})
    ensures KeysMatch(EraseDrive(keys, drive), sessions)
  {
  }

  lemma MountKeepsInv(t: Tables, r: MountRequest)
    requires Inv(t)
    requires t.counter + 1 < UNSIGNED_RANGE
    ensures Inv(AfterMount(t, r))
  {
    if Mounts(t, r) {
      var n := AfterMount(t, r);
      var drive := DriveId(n.counter);
      FreshId(t.counter, n.counter);
      assert drive !in t.sessions;
      hide PathsMatch, KeysMatch, Decimal;
      PathsAdd(t.sessions, t.paths, t.mounted, drive, r.session, MountPath(r));
      KeysAdd(t.keys, t.sessions, KeyOf(r), drive, r.session);
      forall d | d in n.sessions
        ensures IdUpTo(d, n.counter)
      {
        if d in t.sessions {
          IdUpToGrows(d, t.counter, n.counter);
        }
      }
    }
  }

  lemma EjectKeepsInv(t: Tables, drive: string, session: string, umountSucceeds: bool)
    requires Inv(t)
    ensures Inv(AfterEject(t, drive, session, umountSucceeds))
    ensures EjectReplyOf(t, drive, session, umountSucceeds) != NotMounted
  {
    if IsValid(t, drive, session) {
      assert drive in t.paths;
      hide PathsMatch, KeysMatch, EraseDrive;
      KeysRemove(t.keys, t.sessions, drive);
      PathsRemove(t.sessions, t.paths, t.mounted, drive);
    }
  }

  // ---------------------------------------------------------------------------------------------
  // Runs and their history
  // ---------------------------------------------------------------------------------------------

  datatype Request =
    | Mount(r: MountRequest)
    | Eject(drive: string, session: string, umountSucceeds: bool)

  /**
   What has happened to drives: successful mounts, with the id produced, the mount path and the share
   key, and ejects, successful or failed at the umount.
   */
  datatype Entry =
    | Mounted(drive: string, session: string, path: string, key: string)
    | Ejected(drive: string)
    | EjectFailed(drive: string)

  function Step(t: Tables, q: Request): Tables {
    match q
    case Mount(r) => AfterMount(t, r)
    case Eject(d, s, ok) => AfterEject(t, d, s, ok)
  }

  function Run(qs: seq<Request>): Tables {
    if qs == [] then INITIAL else Step(Run(qs[..|qs| - 1]), qs[|qs| - 1])
  }

  function MountCount(log: seq<Entry>): nat {
    if log == [] then 0 else MountCount(log[..|log| - 1]) + (if log[|log| - 1].Mounted? then 1 else 0)
  }

  /** The mount is in the history and none of the given entries comes after it. */
  ghost predicate Since(log: seq<Entry>, mount: Entry, ends: set<Entry>) {
    exists i :: 0 <= i < |log| && log[i] == mount && forall j :: i < j < |log| ==> log[j] !in ends
  }

  /** Session s mounted the drive at that path and nobody has ejected it since. */
  ghost predicate LiveAt(log: seq<Entry>, drive: string, session: string, path: string) {
    exists key :: Since(log, Mounted(drive, session, path, key), {Ejected(drive)})
  }

  /** The share was mounted as that drive and no eject of the drive has been tried since, with or without success. */
  ghost predicate KeyHeld(log: seq<Entry>, key: string, drive: string) {
    exists s, p :: Since(log, Mounted(drive, s, p, key), {Ejected(drive), EjectFailed(drive)})
  }

  ghost predicate LiveIn(log: seq<Entry>, drive: string, session: string) {
    exists path :: LiveAt(log, drive, session, path)
  }

  /** Some live drive is mounted at the path. */
  ghost predicate PathTaken(log: seq<Entry>, path: string) {
    exists d, s :: LiveAt(log, d, s, path)
  }

  /** Some drive holds the share. */
  ghost predicate ShareTaken(log: seq<Entry>, key: string) {
    exists d :: KeyHeld(log, key, d)
  }

  predicate Complete(r: MountRequest) {
    r.userName.Some? && r.password.Some? && r.securityMode.Some?
  }

  /**
   What a request adds to the history, told from the request, the outcomes of the system calls and
   the history so far: the tables and the replies have no part in it.
   */
  ghost function Recorded(log: seq<Entry>, q: Request): (more: seq<Entry>)
    ensures |more| <= 1
  {
    match q
    case Mount(r) =>
      if && Complete(r)
         && !ShareTaken(log, KeyOf(r))
         && r.directoryMade
         && !PathTaken(log, MountPath(r))
         && r.mountSucceeds
      then [Mounted(DriveId(MountCount(log) + 1), r.session, MountPath(r), KeyOf(r))]
      else []
    case Eject(d, s, umountSucceeds) =>
      if LiveIn(log, d, s) then [if umountSucceeds then Ejected(d) else EjectFailed(d)] else []
  }

  ghost function History(qs: seq<Request>): seq<Entry> {
    if qs == [] then []
    else
      var log := History(qs[..|qs| - 1]);
      log + Recorded(log, qs[|qs| - 1])
  }

  ghost predicate DrivesUsed(log: seq<Entry>, counter: nat) {
    forall i :: 0 <= i < |log| ==> IdUpTo(log[i].drive, counter)
  }

  ghost predicate TablesFollow(sessions: map<string, string>, paths: map<string, string>, log: seq<Entry>) {
    forall d, s, p :: d in sessions && sessions[d] == s && d in paths && paths[d] == p <==> LiveAt(log, d, s, p)
  }

  ghost predicate KeysFollow(keys: map<string, string>, log: seq<Entry>) {
    forall k, d :: k in keys && keys[k] == d <==> KeyHeld(log, k, d)
  }

  /** The tables say what the history says, and every drive in the history has an id already used. */
  ghost predicate Agrees(t: Tables, log: seq<Entry>) {
    && DrivesUsed(log, t.counter)
    && TablesFollow(t.sessions, t.paths, log)
    && KeysFollow(t.keys, log)
    && t.counter == MountCount(log)
  }

  /** No id is used up twice: fewer mounts have succeeded than the counter can count. */
  ghost predicate CounterHasNotWrapped(qs: seq<Request>) {
    MountCount(History(qs)) < UNSIGNED_RANGE
  }

  lemma NextIdIsUnused(log: seq<Entry>, n: nat)
    requires DrivesUsed(log, n)
    ensures forall i :: 0 <= i < |log| ==> log[i].drive != DriveId(n + 1)
    ensures DrivesUsed(log, n + 1)
    ensures IdUpTo(DriveId(n + 1), n + 1)
  {
    FreshId(n, n + 1);
    hide IdUpTo, DriveId;
    forall i | 0 <= i < |log|
      ensures IdUpTo(log[i].drive, n + 1) && log[i].drive != DriveId(n + 1)
    {
      IdUpToGrows(log[i].drive, n, n + 1);
    }
    assert IdUpTo(DriveId(n + 1), n + 1) by { IdIsUpToItself(n + 1); }
  }

  lemma IdIsUpToItself(n: nat)
    requires n >= 1
    ensures IdUpTo(DriveId(n), n)
  {
  }

  lemma DrivesUsedAppend(log: seq<Entry>, entry: Entry, n: nat)
    requires DrivesUsed(log, n) && IdUpTo(entry.drive, n)
    ensures DrivesUsed(log + [entry], n)
  {
  }

  lemma SinceAppend(log: seq<Entry>, mount: Entry, ends: set<Entry>, x: Entry)
    ensures Since(log + [x], mount, ends) <==> x == mount || (Since(log, mount, ends) && x !in ends)
  {
    var log' := log + [x];
    assert forall i :: 0 <= i < |log| ==> log'[i] == log[i];
    assert log'[|log|] == x;
    if Since(log, mount, ends) && x !in ends {
      var i :| 0 <= i < |log| && log[i] == mount && forall j :: i < j < |log| ==> log[j] !in ends;
      assert log'[i] == mount && forall j :: i < j < |log'| ==> log'[j] !in ends;
    }
  }

  lemma LiveAtAppend(log: seq<Entry>, x: Entry, d: string, s: string, p: string)
    ensures LiveAt(log + [x], d, s, p)
            <==> (x.Mounted? && x.drive == d && x.session == s && x.path == p)
                 || (LiveAt(log, d, s, p) && x != Ejected(d))
  {
    hide Since;
    forall key {
      SinceAppend(log, Mounted(d, s, p, key), {Ejected(d)}, x);
    }
  }

  lemma KeyHeldAppend(log: seq<Entry>, x: Entry, k: string, d: string)
    ensures KeyHeld(log + [x], k, d)
            <==> (x.Mounted? && x.key == k && x.drive == d)
                 || (KeyHeld(log, k, d) && x != Ejected(d) && x != EjectFailed(d))
  {
    hide Since;
    forall s, p {
      SinceAppend(log, Mounted(d, s, p, k), {Ejected(d), EjectFailed(d)}, x);
    }
  }

  lemma UnknownIsNotLive(log: seq<Entry>, d: string, s: string, p: string)
    requires forall i :: 0 <= i < |log| ==> log[i].drive != d
    ensures !LiveAt(log, d, s, p)
  {
  }

  lemma TablesFollowMount(sessions: map<string, string>, paths: map<string, string>, log: seq<Entry>, x: Entry)
    requires TablesFollow(sessions, paths, log) && x.Mounted?
    requires forall i :: 0 <= i < |log| ==> log[i].drive != x.drive
    ensures TablesFollow(sessions[x.drive := x.session], paths[x.drive := x.path], log + [x])
  {
    hide LiveAt;
    var sessions', paths' := sessions[x.drive := x.session], paths[x.drive := x.path];
    forall d, s, p
      ensures d in sessions' && sessions'[d] == s && d in paths' && paths'[d] == p <==> LiveAt(log + [x], d, s, p)
    {
      LiveAtAppend(log, x, d, s, p);
      if d == x.drive {
        UnknownIsNotLive(log, d, s, p);
      }
    }
  }

  lemma KeysFollowMount(keys: map<string, string>, log: seq<Entry>, x: Entry)
    requires KeysFollow(keys, log) && x.Mounted? && x.key !in keys
    ensures KeysFollow(keys[x.key := x.drive], log + [x])
  {
    hide KeyHeld;
    var keys' := keys[x.key := x.drive];
    forall k, d
      ensures k in keys' && keys'[k] == d <==> KeyHeld(log + [x], k, d)
    {
      KeyHeldAppend(log, x, k, d);
    }
  }

  /** What a mount is for the tables is what it is for the history. */
  lemma MountRecorded(t: Tables, log: seq<Entry>, r: MountRequest)
    requires Inv(t) && Agrees(t, log)
    ensures Recorded(log, Mount(r))
            == if Mounts(t, r) then [Mounted(DriveId(t.counter + 1), r.session, MountPath(r), KeyOf(r))] else []
  {
    AgreesParts(t, log);
    MountedIsTaken(t, log, MountPath(r));
    RefusedWhenKeyKnown(t, r);
    hide Inv, Agrees, ShareTaken, PathTaken, KeyOf, MountPath, DriveId;
    if Complete(r) {
      KnownIsHeld(t.keys, log, KeyOf(r));
    }
  }

  lemma MountedIsTaken(t: Tables, log: seq<Entry>, path: string)
    requires Inv(t) && Agrees(t, log)
    ensures path in t.mounted <==> PathTaken(log, path)
  {
    hide LiveAt, KeysFollow, DrivesUsed, KeysMatch, IdsUsed;
    if path in t.mounted {
      assert HasPath(t.paths, path);
      var d :| d in t.paths && t.paths[d] == path;
      assert LiveAt(log, d, t.sessions[d], path);
    }
  }

  /** What is valid for the tables is live in the history. */
  lemma ValidIsLive(t: Tables, log: seq<Entry>, drive: string, session: string)
    requires Inv(t) && Agrees(t, log)
    ensures IsValid(t, drive, session) <==> LiveIn(log, drive, session)
  {
    hide LiveAt, KeysFollow, DrivesUsed, KeysMatch, IdsUsed;
    if IsValid(t, drive, session) {
      assert LiveAt(log, drive, session, t.paths[drive]);
    }
  }

  lemma EjectRecorded(t: Tables, log: seq<Entry>, drive: string, session: string, ok: bool)
    requires Inv(t) && Agrees(t, log)
    ensures Recorded(log, Eject(drive, session, ok))
            == if IsValid(t, drive, session) then [if ok then Ejected(drive) else EjectFailed(drive)] else []
  {
    ValidIsLive(t, log, drive, session);
    hide Inv, Agrees, LiveIn, IsValid;
  }

  lemma MountAgrees(t: Tables, log: seq<Entry>, r: MountRequest)
    requires Agrees(t, log) && Mounts(t, r)
    requires t.counter + 1 < UNSIGNED_RANGE
    ensures Agrees(AfterMount(t, r), log + [Mounted(DriveId(t.counter + 1), r.session, MountPath(r), KeyOf(r))])
  {
    var drive := DriveId(t.counter + 1);
    var x := Mounted(drive, r.session, MountPath(r), KeyOf(r));
    var after := AfterMount(t, r);
    assert after.counter == t.counter + 1 && after.keys == t.keys[x.key := drive];
    assert after.sessions == t.sessions[drive := r.session] && after.paths == t.paths[drive := x.path];
    assert x.key !in t.keys;
    hide DrivesUsed, TablesFollow, KeysFollow, IdUpTo, MountCount, DriveId, MountPath, KeyOf, AfterMount, Mounts;
    MountCountAppend(log, [x]);
    NextIdIsUnused(log, t.counter);
    DrivesUsedAppend(log, x, t.counter + 1);
    TablesFollowMount(t.sessions, t.paths, log, x);
    KeysFollowMount(t.keys, log, x);
  }

  lemma TablesFollowEject(sessions: map<string, string>, paths: map<string, string>, log: seq<Entry>, drive: string)
    requires TablesFollow(sessions, paths, log)
    ensures TablesFollow(sessions - {drive}, paths - {drive}, log + [Ejected(drive)])
    ensures TablesFollow(sessions, paths, log + [EjectFailed(drive)])
  {
    hide LiveAt;
    forall d, s, p
      ensures d in sessions - {drive} && sessions[d] == s && d in paths - {drive} && paths[d] == p
              <==> LiveAt(log + [Ejected(drive)], d, s, p)
      ensures LiveAt(log + [EjectFailed(drive)], d, s, p) <==> LiveAt(log, d, s, p)
    {
      LiveAtAppend(log, Ejected(drive), d, s, p);
      LiveAtAppend(log, EjectFailed(drive), d, s, p);
    }
  }

  lemma KeysFollowEject(keys: map<string, string>, log: seq<Entry>, x: Entry)
    requires KeysFollow(keys, log) && !x.Mounted?
    ensures KeysFollow(EraseDrive(keys, x.drive), log + [x])
  {
    hide KeyHeld;
    forall k, d
      ensures k in EraseDrive(keys, x.drive) && EraseDrive(keys, x.drive)[k] == d <==> KeyHeld(log + [x], k, d)
    {
      KeyHeldAppend(log, x, k, d);
    }
  }

  lemma EjectAgrees(t: Tables, log: seq<Entry>, drive: string, session: string, ok: bool)
    requires Inv(t) && Agrees(t, log) && IsValid(t, drive, session)
    ensures Agrees(AfterEject(t, drive, session, ok), log + [if ok then Ejected(drive) else EjectFailed(drive)])
  {
    var x := if ok then Ejected(drive) else EjectFailed(drive);
    var after := AfterEject(t, drive, session, ok);
    assert IdUpTo(drive, t.counter) && drive in t.paths;
    assert after.counter == t.counter && after.keys == EraseDrive(t.keys, drive);
    assert ok ==> after.sessions == t.sessions - {drive} && after.paths == t.paths - {drive};
    assert !ok ==> after.sessions == t.sessions && after.paths == t.paths;
    hide DrivesUsed, TablesFollow, KeysFollow, IdUpTo, MountCount, Inv, AfterEject, EraseDrive;
    MountCountAppend(log, [x]);
    DrivesUsedAppend(log, x, t.counter);
    TablesFollowEject(t.sessions, t.paths, log, drive);
    KeysFollowEject(t.keys, log, x);
  }

  lemma MountCountAppend(log: seq<Entry>, more: seq<Entry>)
    requires |more| <= 1
    ensures MountCount(log + more) == MountCount(log) + (if more != [] && more[0].Mounted? then 1 else 0)
  {
    if more == [] {
      assert log + more == log;
    } else {
      assert (log + more)[..|log|] == log;
    }
  }

  /** Every run keeps the tables consistent with one another and in agreement with the history of its requests. */
  lemma {:induction false} RunKeepsTables(qs: seq<Request>)
    requires CounterHasNotWrapped(qs)
    ensures Inv(Run(qs)) && Agrees(Run(qs), History(qs))
    decreases |qs|
  {
    hide Inv, Agrees, Recorded, Step, MountCount;
    if qs == [] {
      NothingYet();
    } else {
      var init, q := qs[..|qs| - 1], qs[|qs| - 1];
      MountCountAppend(History(init), Recorded(History(init), q));
      RunKeepsTables(init);
      StepKeepsTables(Run(init), History(init), q);
    }
  }

  lemma NothingYet()
    ensures Inv(INITIAL) && Agrees(INITIAL, [])
  {
  }

  lemma StepKeepsTables(t: Tables, log: seq<Entry>, q: Request)
    requires Inv(t) && Agrees(t, log)
    requires MountCount(log + Recorded(log, q)) < UNSIGNED_RANGE
    ensures Inv(Step(t, q)) && Agrees(Step(t, q), log + Recorded(log, q))
  {
    MountCountAppend(log, Recorded(log, q));
    AgreesParts(t, log);
    assert log + [] == log;
    hide Inv, Agrees, Recorded, MountCount;
    match q
    case Mount(r) =>
      MountRecorded(t, log, r);
      if Mounts(t, r) {
        MountKeepsInv(t, r);
        MountAgrees(t, log, r);
      }
    case Eject(d, s, ok) =>
      EjectRecorded(t, log, d, s, ok);
      EjectKeepsInv(t, d, s, ok);
      if IsValid(t, d, s) {
        EjectAgrees(t, log, d, s, ok);
      }
  }

  lemma AgreesParts(t: Tables, log: seq<Entry>)
    requires Agrees(t, log)
    ensures t.counter == MountCount(log) && KeysFollow(t.keys, log)
  {
  }

  /**
   An operation on a drive is accepted exactly when the history has a successful mount by that
   session which produced the drive and no successful eject of it since.
   */
  lemma ValidExactlyWhenLive(qs: seq<Request>, drive: string, session: string)
    requires CounterHasNotWrapped(qs)
    ensures IsValid(Run(qs), drive, session) <==> LiveIn(History(qs), drive, session)
  {
    RunKeepsTables(qs);
    hide *;
    ValidIsLive(Run(qs), History(qs), drive, session);
  }

  /** A path is accepted for a drive exactly when it begins with the path at which the live drive was mounted. */
  lemma PathAcceptedExactly(qs: seq<Request>, drive: string, path: string)
    requires CounterHasNotWrapped(qs)
    ensures AcceptsPath(Run(qs).mirror, drive, path)
            <==> exists s, p :: LiveAt(History(qs), drive, s, p) && p <= path
  {
    RunKeepsTables(qs);
    var t := Run(qs);
    hide History, Run, LiveAt;
    if AcceptsPath(t.mirror, drive, path) {
      assert LiveAt(History(qs), drive, t.sessions[drive], t.paths[drive]);
    }
  }

  /**
   A mount request is answered "already mounted" exactly when it is complete and its share has been
   mounted by a drive of which no eject has been tried since.
   */
  lemma AlreadyMountedExactly(qs: seq<Request>, r: MountRequest)
    requires CounterHasNotWrapped(qs)
    ensures MountReplyOf(Run(qs), r) == AlreadyMounted <==> Complete(r) && ShareTaken(History(qs), KeyOf(r))
  {
    RunKeepsTables(qs);
    var t, log := Run(qs), History(qs);
    hide *;
    AgreesParts(t, log);
    RefusedWhenKeyKnown(t, r);
    if Complete(r) {
      HasUserName(r);
      KnownIsHeld(t.keys, log, KeyOf(r));
    }
  }

  lemma HasUserName(r: MountRequest)
    requires Complete(r)
    ensures r.userName.Some?
  {
  }

  lemma RefusedWhenKeyKnown(t: Tables, r: MountRequest)
    ensures MountReplyOf(t, r) == AlreadyMounted <==> Complete(r) && KeyOf(r) in t.keys
  {
    hide KeyOf;
  }

  lemma KnownIsHeld(keys: map<string, string>, log: seq<Entry>, key: string)
    requires KeysFollow(keys, log)
    ensures key in keys <==> ShareTaken(log, key)
  {
    hide KeyHeld;
    if key in keys {
      assert KeyHeld(log, key, keys[key]);
    }
  }

  /** Every reply to a mount request, told from the request and the history. */
  lemma MountAnsweredExactly(qs: seq<Request>, r: MountRequest)
    requires CounterHasNotWrapped(qs)
    ensures var log, reply, path := History(qs), MountReplyOf(Run(qs), r), "/tmp/" + r.ip + "_" + r.timestamp;
            && (reply == NoUserName <==> r.userName.None?)
            && (reply == NoPassword <==> r.userName.Some? && r.password.None?)
            && (reply == NoSecurityMode <==> r.userName.Some? && r.password.Some? && r.securityMode.None?)
            && (Complete(r) ==>
                  && (reply == AlreadyMounted <==> ShareTaken(log, KeyOf(r)))
                  && (reply == NoDirectory <==> !ShareTaken(log, KeyOf(r)) && !r.directoryMade)
                  && (reply == MountedAt(path) <==> !ShareTaken(log, KeyOf(r)) && r.directoryMade
                                                    && (PathTaken(log, path) || r.mountSucceeds))
                  && (reply == UnableToMount(path) <==> !ShareTaken(log, KeyOf(r)) && r.directoryMade
                                                        && !PathTaken(log, path) && !r.mountSucceeds))
  {
    RunKeepsTables(qs);
    var t, log := Run(qs), History(qs);
    hide *;
    MountedIsTaken(t, log, MountPath(r));
    AgreesParts(t, log);
    PathOfMount(r);
    RepliesFromTables(t, r);
    if Complete(r) {
      HasUserName(r);
      KnownIsHeld(t.keys, log, KeyOf(r));
    }
  }

  /**
   Every table after a mount request: a drive is added exactly when the request is complete, the
   share and the path are free, the directory is made and the mount call succeeds; nothing changes
   otherwise.
   */
  lemma MountChangesExactly(qs: seq<Request>, r: MountRequest)
    requires CounterHasNotWrapped(qs) && MountCount(History(qs)) + 1 < UNSIGNED_RANGE
    ensures var t, n, log := Run(qs), AfterMount(Run(qs), r), History(qs);
            var drive, path := DriveId(MountCount(log) + 1), "/tmp/" + r.ip + "_" + r.timestamp;
            if && Complete(r) && !ShareTaken(log, KeyOf(r))
               && r.directoryMade && !PathTaken(log, path) && r.mountSucceeds
            then
              n == Tables(t.keys[KeyOf(r) := drive], t.sessions[drive := r.session], t.paths[drive := path],
                          t.mounted[path := path], t.mirror[drive := path], t.counter + 1)
            else n == t
  {
    RunKeepsTables(qs);
    var t, log := Run(qs), History(qs);
    assert t.mirror == t.paths;
    hide *;
    MountedIsTaken(t, log, MountPath(r));
    AgreesParts(t, log);
    PathOfMount(r);
    TablesFromTables(t, r);
    if Complete(r) {
      HasUserName(r);
      KnownIsHeld(t.keys, log, KeyOf(r));
    }
  }

  lemma PathOfMount(r: MountRequest)
    ensures MountPath(r) == "/tmp/" + r.ip + "_" + r.timestamp
  {
  }

  lemma RepliesFromTables(t: Tables, r: MountRequest)
    ensures var reply, path := MountReplyOf(t, r), MountPath(r);
            && (reply == NoUserName <==> r.userName.None?)
            && (reply == NoPassword <==> r.userName.Some? && r.password.None?)
            && (reply == NoSecurityMode <==> r.userName.Some? && r.password.Some? && r.securityMode.None?)
            && (Complete(r) ==>
                  && (reply == AlreadyMounted <==> KeyOf(r) in t.keys)
                  && (reply == NoDirectory <==> KeyOf(r) !in t.keys && !r.directoryMade)
                  && (reply == MountedAt(path) <==> KeyOf(r) !in t.keys && r.directoryMade
                                                    && (path in t.mounted || r.mountSucceeds))
                  && (reply == UnableToMount(path) <==> KeyOf(r) !in t.keys && r.directoryMade
                                                        && path !in t.mounted && !r.mountSucceeds))
  {
    hide KeyOf, MountPath;
  }

  lemma TablesFromTables(t: Tables, r: MountRequest)
    requires t.counter + 1 < UNSIGNED_RANGE && t.mirror == t.paths
    ensures var n, drive, path := AfterMount(t, r), DriveId(t.counter + 1), MountPath(r);
            if Complete(r) && KeyOf(r) !in t.keys && r.directoryMade && path !in t.mounted && r.mountSucceeds then
              n == Tables(t.keys[KeyOf(r) := drive], t.sessions[drive := r.session], t.paths[drive := path],
                          t.mounted[path := path], t.mirror[drive := path], t.counter + 1)
            else n == t
  {
    hide KeyOf, MountPath, DriveId;
  }

  /** A mount of which a system call fails changes no table and is not answered as a new mount. */
  lemma FailedMountChangesNothing(t: Tables, r: MountRequest)
    requires !r.mountSucceeds || !r.directoryMade
    ensures AfterMount(t, r) == t
    ensures MountReplyOf(t, r).MountedAt? ==> r.directoryMade && MountPath(r) in t.mounted
  {
    hide KeyOf, MountPath;
  }

  /**
   A valid eject whose umount succeeds takes the drive out of every table and touches no other
   drive; one whose umount fails only gives up the drive's share key; an invalid one does nothing.
   */
  lemma EjectExactly(t: Tables, drive: string, session: string, umountSucceeds: bool)
    requires Inv(t)
    ensures var n := AfterEject(t, drive, session, umountSucceeds);
            var reply := EjectReplyOf(t, drive, session, umountSucceeds);
            if !IsValid(t, drive, session) then reply == InvalidDrive && n == t
            else if umountSucceeds then
              && reply == EjectDone
              && drive !in n.sessions && drive !in n.paths && drive !in n.mirror && t.paths[drive] !in n.mounted
              && (forall s :: !IsValid(n, drive, s))
              && (forall d :: d in t.sessions && d != drive ==>
                    && d in n.sessions && n.sessions[d] == t.sessions[d]
                    && d in n.paths && n.paths[d] == t.paths[d] && n.paths[d] in n.mounted
                    && d in n.mirror && n.mirror[d] == t.paths[d])
            else
              && reply == UnableToEject
              && n.sessions == t.sessions && n.paths == t.paths && n.mounted == t.mounted && n.mirror == t.mirror
    ensures var n := AfterEject(t, drive, session, umountSucceeds);
            n.counter == t.counter &&
            forall k :: k in n.keys <==> k in t.keys && !(IsValid(t, drive, session) && t.keys[k] == drive)
  {
    hide IdsUsed;
  }

  /**
   After an eject that failed at the umount the same share can be mounted a second time, by whatever
   session, and then both drives are valid: the key has gone and the drive has not.
   */
  lemma FailedEjectAllowsSecondMount(t: Tables, drive: string, session: string, r: MountRequest)
    requires Inv(t) && t.counter + 1 < UNSIGNED_RANGE && IsValid(t, drive, session)
    requires Complete(r)
    requires KeyOf(r) in t.keys && t.keys[KeyOf(r)] == drive
    requires r.directoryMade && r.mountSucceeds && MountPath(r) !in t.mounted
    ensures MountReplyOf(t, r) == AlreadyMounted
    ensures var n := AfterMount(AfterEject(t, drive, session, false), r); var second := DriveId(t.counter + 1);
            drive != second && IsValid(n, drive, session) && IsValid(n, second, r.session)
  {
    var t1 := AfterEject(t, drive, session, false);
    FailedEjectDropsKey(t, drive, session, KeyOf(r));
    hide AfterEject, Inv, KeyOf, MountPath, EraseDrive, DriveId;
    assert Mounts(t1, r);
    MountAddsSession(t1, r);
  }

  lemma MountAddsSession(t: Tables, r: MountRequest)
    requires Mounts(t, r) && t.counter + 1 < UNSIGNED_RANGE
    ensures AfterMount(t, r).sessions == t.sessions[DriveId(t.counter + 1) := r.session]
  {
    hide DriveId;
  }

  lemma FailedEjectDropsKey(t: Tables, drive: string, session: string, key: string)
    requires Inv(t) && IsValid(t, drive, session)
    requires key in t.keys && t.keys[key] == drive
    ensures var n := AfterEject(t, drive, session, false);
            n.sessions == t.sessions && n.mounted == t.mounted && n.counter == t.counter && key !in n.keys
    ensures drive != DriveId(t.counter + 1)
  {
    assert drive in t.paths;
    assert IdUpTo(drive, t.counter);
    FreshId(t.counter, t.counter + 1);
  }

  /** Two different shares can have one key. */
  lemma ShareKeysCollide()
    ensures ShareKey("h", "a_b", "c") == ShareKey("h", "a", "b_c") == "h_a_b_c"
  {
  }

  /** Without underscores in addresses and user names they cannot. */
  lemma ShareKeyInjective(ip: string, user: string, share: string, ip': string, user': string, share': string)
    requires '_' !in ip && '_' !in ip' && '_' !in user && '_' !in user'
    requires ShareKey(ip, user, share) == ShareKey(ip', user', share')
    ensures ip == ip' && user == user' && share == share'
  {
    ShareKeyIs(ip, user, share);
    ShareKeyIs(ip', user', share');
    FirstField(ip, user + "_" + share, ip', user' + "_" + share');
    FirstField(user, share, user', share');
  }

  lemma ShareKeyIs(ip: string, user: string, share: string)
    ensures ShareKey(ip, user, share) == ip + "_" + (user + "_" + share)
  {
  }

  lemma FirstField(a: string, x: string, b: string, y: string)
    requires '_' !in a && '_' !in b
    requires a + "_" + x == b + "_" + y
    ensures a == b && x == y
  {
    var s := a + "_" + x;
    assert s[..|a|] == a && s[..|b|] == b && s[0..|a|] == a && s[0..|b|] == b;
    assert s[|a|] == '_' && s[|b|] == '_';
    Paths.FindIs(s, '_', 0, |a|, a);
    Paths.FindIs(s, '_', 0, |b|, b);
    assert s[|a| + 1..] == x && s[|b| + 1..] == y;
  }

  /** The path is the mount itself or lies in it. */
  predicate Within(mount: string, path: string) {
    path == mount || mount + "/" <= path
  }

  /**
   The test is a plain prefix: of two different mounts, the first one's test accepts a path that lies
   in the second and not in the first exactly when the second's path goes on without a slash where
   the first's ends, or the first lies inside the second.
   */
  lemma PrefixReachesOtherExactly(p: string, q: string)
    requires p != q
    ensures (exists path :: p <= path && Within(q, path) && !Within(p, path))
            <==> (p < q && q[|p|] != '/') || q + "/" <= p
  {
    if p < q && q[|p|] != '/' {
      assert p <= q && Within(q, q) && !Within(p, q);
    }
    if q + "/" <= p {
      var path := p + "x";
      assert path[|p|] != '/';
      assert p <= path && Within(q, path) && !Within(p, path);
    }
    if path :| p <= path && Within(q, path) && !Within(p, path) {
      PrefixesOf(p, q, path);
    }
  }

  lemma PrefixesOf(p: string, q: string, path: string)
    requires p != q && p <= path && Within(q, path) && !Within(p, path)
    ensures (p < q && q[|p|] != '/') || q + "/" <= p
  {
    assert q <= path;
    if |p| < |q| {
      assert p == path[..|p|] == q[..|p|];
      assert path[..|p| + 1] == p + [q[|p|]];
    } else {
      assert |p| > |q| by {
        assert p == path[..|p|] && q == path[..|q|];
      }
      assert path[..|q| + 1] == q + "/";
      assert p[..|q| + 1] == path[..|q| + 1];
    }
  }

  /** The same of two live drives of any run: their mount paths always differ. */
  lemma OtherMountAcceptedExactly(qs: seq<Request>, drive: string, other: string)
    requires CounterHasNotWrapped(qs)
    requires drive in Run(qs).mirror && other in Run(qs).mirror && drive != other
    ensures var p, q := Run(qs).mirror[drive], Run(qs).mirror[other];
            (exists path :: AcceptsPath(Run(qs).mirror, drive, path) && Within(q, path) && !Within(p, path))
            <==> (p < q && q[|p|] != '/') || q + "/" <= p
  {
    RunKeepsTables(qs);
    var p, q := Run(qs).mirror[drive], Run(qs).mirror[other];
    hide Run, Within, Agrees;
    assert p != q;
    PrefixReachesOtherExactly(p, q);
    if path :| AcceptsPath(Run(qs).mirror, drive, path) && Within(q, path) && !Within(p, path) {
      assert p <= path && Within(q, path) && !Within(p, path);
    }
    if path :| p <= path && Within(q, path) && !Within(p, path) {
      assert AcceptsPath(Run(qs).mirror, drive, path) && Within(q, path) && !Within(p, path);
    }
  }

  lemma {:induction false} HistoryGrows(qs: seq<Request>, n: nat)
    requires n <= |qs|
    ensures History(qs[..n]) <= History(qs)
    decreases |qs| - n
  {
    if n < |qs| {
      HistoryGrows(qs, n + 1);
      assert qs[..n + 1][..n] == qs[..n];
    } else {
      assert qs[..n] == qs;
    }
  }

  lemma {:induction false} MountCountGrows(a: seq<Entry>, b: seq<Entry>)
    requires a <= b
    ensures MountCount(a) <= MountCount(b)
    decreases |b|
  {
    if |a| < |b| {
      assert a <= b[..|b| - 1];
      MountCountGrows(a, b[..|b| - 1]);
    } else {
      assert a == b;
    }
  }

  lemma EjectedIdIsNotReused(t: Tables, log: seq<Entry>, i: nat, q: Request, drive: string, session: string)
    requires (Agrees(t, log) && t.counter + 1 < UNSIGNED_RANGE) || !q.Mount? || !Mounts(t, q.r)
    requires i < |log| && log[i].drive == drive
    requires !IsValid(t, drive, session)
    ensures !IsValid(Step(t, q), drive, session)
  {
    if q.Mount? && Mounts(t, q.r) {
      NextIdIsUnused(log, t.counter);
      hide Agrees, DriveId, Mounts, AfterMount;
      MountAddsSession(t, q.r);
    } else if q.Eject? {
      EjectAddsNobody(t, q.drive, q.session, q.umountSucceeds);
    }
  }

  lemma EjectAddsNobody(t: Tables, drive: string, session: string, ok: bool)
    ensures forall d, s :: IsValid(AfterEject(t, drive, session, ok), d, s) ==> IsValid(t, d, s)
  {
  }

  /** Once ejected an id is never valid again, for any session, however the run goes on. */
  lemma {:induction false} EjectedStaysInvalid(qs: seq<Request>, i: nat, drive: string, session: string)
    requires CounterHasNotWrapped(qs)
    requires i < |History(qs)| && History(qs)[i] == Ejected(drive)
    ensures !IsValid(Run(qs), drive, session)
    decreases |qs|
  {
    var init, q := qs[..|qs| - 1], qs[|qs| - 1];
    var log := History(init);
    var t := Run(init);
    MountCountAppend(log, Recorded(log, q));
    RunKeepsTables(init);
    hide Inv, Agrees, Step, Recorded, IsValid, MountCount;
    AgreesParts(t, log);
    if i < |log| {
      EjectedStaysInvalid(init, i, drive, session);
      if q.Mount? {
        MountRecorded(t, log, q.r);
      }
      EjectedIdIsNotReused(t, log, i, q, drive, session);
    } else {
      RecordedEject(t, log, q, drive, session);
    }
  }

  lemma RecordedEject(t: Tables, log: seq<Entry>, q: Request, drive: string, session: string)
    requires Inv(t) && Agrees(t, log) && Recorded(log, q) == [Ejected(drive)]
    ensures !IsValid(Step(t, q), drive, session)
  {
    EjectRecorded(t, log, q.drive, q.session, q.umountSucceeds);
    EjectExactly(t, q.drive, q.session, q.umountSucceeds);
    hide Inv, Agrees, Recorded, AfterEject;
  }

  // ---------------------------------------------------------------------------------------------
  // The classes
  // ---------------------------------------------------------------------------------------------

  lemma FoundAtStart(s: string, p: string)
    ensures FindSub(s, p, 0) == 0 <==> p <= s
  {
    if p <= s {
      assert s[..|p|] == p;
      assert OccursAt(s, p, 0);
    }
  }

  class SAFUtilityOperation {
    var mSambaDrivePathMap: map<string, string>

    constructor ()
      ensures mSambaDrivePathMap == map[]
    {
      mSambaDrivePathMap := map[];
    }

    method SetDriveDetails(typeName: string, inputMap: map<string, string>)
      modifies this
      ensures mSambaDrivePathMap == if typeName == "SAMBA" then inputMap else old(mSambaDrivePathMap)
    {
      if typeName == "SAMBA" {
        mSambaDrivePathMap := map[];
        var todo := inputMap.Keys;
        while todo != {}
          invariant todo <= inputMap.Keys
          invariant mSambaDrivePathMap == map k | k in inputMap && k !in todo :: inputMap[k]
          decreases |todo|
        {
          var k :| k in todo;
          todo := todo - {k};
          mSambaDrivePathMap := mSambaDrivePathMap[k := inputMap[k]];
        }
      }
    }

    /** `validateSambaPath`: the mount path starts the path, which the file system says exists or not. */
    method ValidateSambaPath(path: string, driveId: string, pathExists: bool) returns (ok: bool)
      ensures ok <==> AcceptsPath(mSambaDrivePathMap, driveId, path) && pathExists
    {
      if driveId in mSambaDrivePathMap {
        FoundAtStart(path, mSambaDrivePathMap[driveId]);
        if FindSub(path, mSambaDrivePathMap[driveId], 0) == 0 && pathExists {
          return true;
        }
      }
      return false;
    }
  }

  class NetworkProvider {
    const utility: SAFUtilityOperation
    var mSambaDriveMap: map<string, string>
    var mSambaSessionData: map<string, string>
    var mSambaPathMap: map<string, string>
    var mntpathmap: map<string, string>
    var id: nat

    ghost function View(): Tables
      reads this, utility
    {
      Tables(mSambaDriveMap, mSambaSessionData, mSambaPathMap, mntpathmap, utility.mSambaDrivePathMap, id)
    }

    constructor ()
      ensures fresh(utility) && View() == INITIAL
    {
      utility := new SAFUtilityOperation();
      mSambaDriveMap, mSambaSessionData, mSambaPathMap, mntpathmap, id := map[], map[], map[], map[], 0;
    }

    method GenerateUniqueSambaDriveId() returns (driveId: string)
      modifies this`id
      ensures id == NextCounter(old(id)) && driveId == DriveId(id) == "SAMBA_" + Decimal(id)
    {
      id := (id + 1) % UNSIGNED_RANGE;
      driveId := "SAMBA_" + Decimal(id);
    }

    method ValidateSambaOperation(driveId: string, sessionId: string) returns (ok: bool)
      ensures ok <==> IsValid(View(), driveId, sessionId)
    {
      ok := driveId in mSambaSessionData && mSambaSessionData[driveId] == sessionId;
    }

    method MountSambaServer(r: MountRequest) returns (reply: MountReply)
      modifies this, utility
      ensures View() == AfterMount(old(View()), r)
      ensures reply == MountReplyOf(old(View()), r)
    {
      if r.userName.None? {
        return NoUserName;
      }
      if r.password.None? {
        return NoPassword;
      }
      if r.securityMode.None? {
        return NoSecurityMode;
      }
      var path := "/tmp/" + r.ip + "_" + r.timestamp;
      var uniqueKey := r.ip + "_" + r.userName.value + "_" + r.sharePath;
      if uniqueKey in mSambaDriveMap {
        return AlreadyMounted;
      }
      if !r.directoryMade {
        return NoDirectory;
      }
      if path !in mntpathmap {
        if r.mountSucceeds {
          var driveId := GenerateUniqueSambaDriveId();
          mSambaDriveMap := mSambaDriveMap[uniqueKey := driveId];
          mSambaSessionData := mSambaSessionData[mSambaDriveMap[uniqueKey] := r.session];
          mSambaPathMap := mSambaPathMap[mSambaDriveMap[uniqueKey] := path];
          utility.SetDriveDetails("SAMBA", mSambaPathMap);
          mntpathmap := mntpathmap[path := path];
          return MountedAt(path);
        } else {
          return UnableToMount(path);
        }
      } else {
        return MountedAt(path);
      }
    }

    /** `eject`; the loop stops at the first share key of the drive, which by the invariant is the only one. */
    method EjectDrive(driveId: string, sessionId: string, umountSucceeds: bool) returns (reply: EjectReply)
      requires Inv(View())
      modifies this, utility
      ensures View() == AfterEject(old(View()), driveId, sessionId, umountSucceeds)
      ensures reply == EjectReplyOf(old(View()), driveId, sessionId, umountSucceeds)
      ensures reply != NotMounted
    {
      EjectKeepsInv(View(), driveId, sessionId, umountSucceeds);
      var ok := ValidateSambaOperation(driveId, sessionId);
      if !ok {
        return InvalidDrive;
      }
      EraseKey(driveId);
      if driveId in mSambaPathMap {
        if umountSucceeds {
          mntpathmap := mntpathmap - {mSambaPathMap[driveId]};
          mSambaSessionData := mSambaSessionData - {driveId};
          mSambaPathMap := mSambaPathMap - {driveId};
          utility.SetDriveDetails("SAMBA", mSambaPathMap);
          return EjectDone;
        } else {
          return UnableToEject;
        }
      } else {
        return NotMounted;
      }
    }

    method EraseKey(driveId: string)
      requires Injective(mSambaDriveMap)
      modifies this`mSambaDriveMap
      ensures mSambaDriveMap == EraseDrive(old(mSambaDriveMap), driveId)
    {
      var todo := mSambaDriveMap.Keys;
      while todo != {}
        invariant todo <= mSambaDriveMap.Keys && mSambaDriveMap == old(mSambaDriveMap)
        invariant forall k :: k in mSambaDriveMap && k !in todo ==> mSambaDriveMap[k] != driveId
        decreases |todo|
      {
        var k :| k in todo;
        if mSambaDriveMap[k] == driveId {
          mSambaDriveMap := mSambaDriveMap - {k};
          break;
        }
        todo := todo - {k};
      }
    }

    /**
     The Samba part of `listStoragesMethod`: exactly the drives the caller may operate on, each with
     its mount path. Every drive with a session has a path, by the invariant.
     */
    method ListStorages(sessionId: string) returns (drives: map<string, string>)
      requires mSambaSessionData.Keys == mSambaPathMap.Keys
      ensures forall d :: d in drives <==> IsValid(View(), d, sessionId)
      ensures forall d :: d in drives ==> d in mSambaPathMap && drives[d] == mSambaPathMap[d]
    {
      drives := map[];
      var todo := mSambaSessionData.Keys;
      while todo != {}
        invariant todo <= mSambaSessionData.Keys
        invariant forall d :: d in drives <==> d in mSambaSessionData && d !in todo && mSambaSessionData[d] == sessionId
        invariant forall d :: d in drives ==> d in mSambaPathMap && drives[d] == mSambaPathMap[d]
        decreases |todo|
      {
        var d :| d in todo;
        todo := todo - {d};
        if mSambaSessionData[d] == sessionId {
          drives := drives[d := mSambaPathMap[d]];
        }
      }
    }
  }

  lemma PrefixHasNotWrapped(qs: seq<Request>, n: nat)
    requires CounterHasNotWrapped(qs) && n <= |qs|
    ensures CounterHasNotWrapped(qs[..n])
  {
    HistoryGrows(qs, n);
    MountCountGrows(History(qs[..n]), History(qs));
  }

  /** A provider that has served any requests holds the tables of their run. */
  method Serve(qs: seq<Request>) returns (provider: NetworkProvider)
    requires CounterHasNotWrapped(qs)
    ensures fresh(provider) && fresh(provider.utility)
    ensures provider.View() == Run(qs)
  {
    hide Inv, AfterMount, AfterEject, History, CounterHasNotWrapped;
    provider := new NetworkProvider();
    for i := 0 to |qs|
      invariant fresh(provider) && fresh(provider.utility)
      invariant provider.View() == Run(qs[..i])
    {
      PrefixHasNotWrapped(qs, i);
      RunKeepsTables(qs[..i]);
      assert qs[..i + 1][..i] == qs[..i];
      match qs[i] {
        case Mount(r) =>
          var _ := provider.MountSambaServer(r);
        case Eject(d, s, umountSucceeds) =>
          var _ := provider.EjectDrive(d, s, umountSucceeds);
      }
    }
    assert qs[..|qs|] == qs;
  }

  /** After any requests an operation is accepted exactly when their history says so. */
  method ServeThenValidate(qs: seq<Request>, drive: string, session: string) returns (ok: bool)
    requires CounterHasNotWrapped(qs)
    ensures ok <==> LiveIn(History(qs), drive, session)
  {
    hide *;
    var provider := Serve(qs);
    ValidExactlyWhenLive(qs, drive, session);
    ok := provider.ValidateSambaOperation(drive, session);
  }

  /** After any requests a path that exists is accepted exactly when it begins with the mount path of the live drive. */
  method ServeThenValidatePath(qs: seq<Request>, path: string, drive: string, pathExists: bool) returns (ok: bool)
    requires CounterHasNotWrapped(qs)
    ensures ok <==> pathExists && exists s, p :: LiveAt(History(qs), drive, s, p) && p <= path
  {
    var provider := Serve(qs);
    assert provider.utility.mSambaDrivePathMap == Run(qs).mirror by {
      assert provider.View().mirror == provider.utility.mSambaDrivePathMap;
    }
    hide *;
    PathAcceptedExactly(qs, drive, path);
    ok := provider.utility.ValidateSambaPath(path, drive, pathExists);
  }
}
