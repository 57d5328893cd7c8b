/**
 The UPnP provider's way from a path to a container: the path is cut at its slashes, then the
 containers are walked down by title.
 */
module Upnp {
  import opened Strings
  import opened Wrappers
  import opened Paths

  // ---------------------------------------------------------------------------------------------
  // Cutting the path
  // ---------------------------------------------------------------------------------------------

  /** `substr` from a position beyond the end. */
  datatype Error = OutOfRange

  type Names = Result<seq<string>, Error>

  const NPOS: nat := 0xFFFF_FFFF_FFFF_FFFF

  /** `s.find("/")` as a `size_t`. */
  function FindSlash(s: string): nat {
    var i := Find(s, '/', 0);
    if i < |s| then i else NPOS
  }

  /**
   What the loop adds to the names once `temp` is the path from i on. An empty value moves the
   position one further: past a second slash and the character after it, or, at the end of the
   path, round to 0 and from there beyond the end of the empty `temp`.
   */
  function NamesFrom(path: string, i: nat): Names
    decreases |path| + 2 - i
  {
    if i > |path| then Failure(OutOfRange)
    else
      var e := Find(path, '/', i);
      if e == i then NamesFrom(path, i + 2)
      else if e == |path| then Success([path[i..e]])
      else Prepend([path[i..e]], NamesFrom(path, e + 1))
  }

  function Prepend(names: seq<string>, r: Names): Names {
    match r
    case Success(more) => Success(names + more)
    case Failure(error) => Failure(error)
  }

  function DirPathNames(path: string): Names {
    var e := Find(path, '/', 0);
    if e == |path| then Success([]) else NamesFrom(path, e + 1)
  }

  /** What the provider demands of a path before it is cut. */
  predicate PassesGuard(path: string) {
    path != "" && path[0] == '/' && path[|path| - 1] != '/'
  }

  /** [a, b) is a longest run of slashes. */
  predicate IsRun(path: string, a: nat, b: nat) {
    && a < b <= |path|
    && (forall k :: a <= k < b ==> path[k] == '/')
    && (a > 0 ==> path[a - 1] != '/')
    && (b < |path| ==> path[b] != '/')
  }

  ghost predicate OddRunsFrom(path: string, i: nat) {
    forall a: nat, b: nat :: i <= a && IsRun(path, a, b) ==> (b - a) % 2 == 1
  }

  /** An even number of slashes to skip, a name after them, and only odd runs from there on. */
  ghost predicate Tidy(path: string, i: nat)
    requires i <= |path|
  {
    var j := FindNot(path, '/', i);
    j < |path| && (j - i) % 2 == 0 && OddRunsFrom(path, j) && path[|path| - 1] != '/'
  }

  function NonSlash(path: string, i: nat): nat
    requires i <= |path|
    decreases |path| - i
  {
    if i == |path| then 0 else (if path[i] == '/' then 0 else 1) + NonSlash(path, i + 1)
  }

  function TotalLength(names: seq<string>): nat {
    if names == [] then 0 else |names[0]| + TotalLength(names[1..])
  }

  lemma {:induction false} NonSlashSpan(path: string, i: nat, e: nat)
    requires i <= e <= |path|
    ensures '/' !in path[i..e] ==> NonSlash(path, i) == e - i + NonSlash(path, e)
    ensures (forall k :: i <= k < e ==> path[k] == '/') ==> NonSlash(path, i) == NonSlash(path, e)
    ensures NonSlash(path, i) >= NonSlash(path, e)
    decreases e - i
  {
    if i < e {
      assert path[i..e] == [path[i]] + path[i + 1..e];
      NonSlashSpan(path, i + 1, e);
    }
  }

  /** The components of a path have all its other characters between them. */
  lemma {:induction false} ComponentsKeepAll(path: string, i: nat)
    requires i <= |path|
    ensures TotalLength(Components(path, i)) == NonSlash(path, i)
    decreases |path| - i
  {
    var start := FindNot(path, '/', i);
    NonSlashSpan(path, i, start);
    if start < |path| {
      var e := Find(path, '/', start);
      NonSlashSpan(path, start, e);
      ComponentsKeepAll(path, e);
    }
  }

  lemma {:induction false} NamesKeepNoMore(path: string, i: nat)
    requires i <= |path|
    ensures NamesFrom(path, i).Success? ==> TotalLength(NamesFrom(path, i).value) <= NonSlash(path, i)
    decreases |path| - i
  {
    hide NonSlash, Find;
    var e := Find(path, '/', i);
    NonSlashSpan(path, i, e);
    if e > i {
      if e < |path| {
        NonSlashSpan(path, e, e + 1);
        NamesKeepNoMore(path, e + 1);
      }
    } else if i + 2 <= |path| {
      NonSlashSpan(path, i, i + 2);
      NamesKeepNoMore(path, i + 2);
    }
  }

  lemma RunAt(path: string, e: nat)
    requires e < |path| && path[e] == '/' && (e > 0 ==> path[e - 1] != '/')
    ensures var j := FindNot(path, '/', e + 1);
            IsRun(path, e, j) && (forall b: nat :: IsRun(path, e, b) ==> b == j)
  {
  }

  /** Skipping a name and the slash after it keeps what makes the rest tidy. */
  lemma TidyAfterName(path: string, i: nat, e: nat)
    requires i < e < |path| && e == Find(path, '/', i)
    ensures Tidy(path, i) <==> Tidy(path, e + 1)
  {
    NotSlash(path, i, e);
    var j := FindNot(path, '/', e + 1);
    RunAt(path, e);
    assert FindNot(path, '/', i) == i;
    if OddRunsFrom(path, i) {
      assert (j - e) % 2 == 1;
      assert OddRunsFrom(path, j);
    }
    if OddRunsFrom(path, j) && (j - e) % 2 == 1 {
      forall a: nat, b: nat | i <= a && IsRun(path, a, b)
        ensures (b - a) % 2 == 1
      {
        assert path[a] == '/';
        assert a == e || path[a - 1] != '/';
        assert a == e || a >= j;
      }
    }
  }

  lemma NotSlash(path: string, i: nat, e: nat)
    requires i <= e <= |path| && '/' !in path[i..e]
    ensures forall k :: i <= k < e ==> path[k] != '/'
  {
  }

  lemma LastName(path: string, i: nat)
    requires i < |path| && Find(path, '/', i) == |path|
    ensures Tidy(path, i)
    ensures Components(path, i) == [path[i..|path|]]
  {
    NotSlash(path, i, |path|);
    assert FindNot(path, '/', i) == i;
    assert FindNot(path, '/', |path|) == |path|;
    forall a: nat, b: nat | i <= a
      ensures !IsRun(path, a, b)
    {
      assert a >= |path| || path[a] != '/';
    }
  }

  lemma NameThenSlash(path: string, i: nat, e: nat)
    requires i < e < |path| && e == Find(path, '/', i)
    ensures Components(path, i) == [path[i..e]] + Components(path, e + 1)
  {
    NotSlash(path, i, e);
    ComponentFrom(path, i, e);
    SlashIsSkipped(path, e);
  }

  lemma Cons<T>(x: T, s: seq<T>, t: seq<T>)
    ensures [x] + s == [x] + t <==> s == t
  {
    assert ([x] + s)[1..] == s && ([x] + t)[1..] == t;
  }

  /** From behind an odd number of slashes, the loop finds the components of the rest exactly when the rest is tidy. */
  lemma {:induction false} NamesFromExactly(path: string, i: nat)
    requires i <= |path|
    ensures NamesFrom(path, i) == Success(Components(path, i)) <==> Tidy(path, i)
    decreases |path| - i
  {
    hide Components, Tidy, Find, FindNot;
    var e := Find(path, '/', i);
    if e == |path| && e > i {
      LastName(path, i);
    } else if e > i {
      NamesFromExactly(path, e + 1);
      TidyAfterName(path, i, e);
      NameThenSlash(path, i, e);
      if NamesFrom(path, e + 1).Success? {
        Cons(path[i..e], NamesFrom(path, e + 1).value, Components(path, e + 1));
      }
    } else {
      SlashAt(path, i);
      if i + 2 <= |path| && path[i + 1] == '/' {
        NamesFromExactly(path, i + 2);
      } else if i + 2 <= |path| {
        NamesKeepNoMore(path, i + 2);
        ComponentsKeepAll(path, i);
        NonSlashSpan(path, i + 2, i + 2);
      }
    }
  }

  lemma SlashAt(path: string, i: nat)
    requires i <= |path| && Find(path, '/', i) == i
    ensures i + 2 > |path| ==> !Tidy(path, i)
    ensures i + 2 <= |path| && path[i + 1] == '/' ==>
              (Tidy(path, i) <==> Tidy(path, i + 2)) && Components(path, i) == Components(path, i + 2)
    ensures i + 2 <= |path| && path[i + 1] != '/' ==> !Tidy(path, i)
  {
  }

  /**
   The loop finds the same names as the drive provider's splitter exactly for the empty path and
   for paths that pass the guard and whose every run of slashes is odd.
   */
  lemma SplitsAgreeExactly(path: string)
    ensures DirPathNames(path) == Success(Components(path, 0))
            <==> path == "" || (PassesGuard(path) && OddRunsFrom(path, 0))
  {
    hide NamesFrom, Components;
    var e := Find(path, '/', 0);
    if path == "" {
      NoneAtEnd(path);
    } else if path[0] == '/' {
      SlashIsSkipped(path, 0);
      NamesFromExactly(path, 1);
      LeadingRun(path);
    } else {
      ComponentsKeepAll(path, 0);
      NonSlashSpan(path, 0, e);
      assert TotalLength([]) == 0;
      if e < |path| {
        NonSlashSpan(path, e, e + 1);
        NamesKeepNoMore(path, e + 1);
      }
    }
  }

  lemma LeadingRun(path: string)
    requires path != "" && path[0] == '/'
    ensures Tidy(path, 1) <==> PassesGuard(path) && OddRunsFrom(path, 0)
  {
    var j := FindNot(path, '/', 1);
    RunAt(path, 0);
    if OddRunsFrom(path, j) && j % 2 == 1 {
      forall a: nat, b: nat | 0 <= a && IsRun(path, a, b)
        ensures (b - a) % 2 == 1
      {
        assert a == 0 || path[a - 1] != '/';
        assert a == 0 || a >= j;
      }
    }
  }

  lemma FirstNameEnds(prefix: string, names: seq<string>)
    requires names != [] && CleanNames(names)
    ensures var path := PathOf(prefix, names); var e := |prefix| + |names[0]|;
            && |prefix| < e <= |path| && Find(path, '/', |prefix|) == e && path[|prefix|..e] == names[0]
  {
    assert CleanName(names[0]);
    hide Find, PathOf;
    var path := PathOf(prefix, names);
    var rest := PathShape(prefix, names);
    var e := |prefix| + |names[0]|;
    assert path[|prefix|..e] == names[0] && path[e..] == rest;
    FindIs(path, '/', |prefix|, e, names[0]);
  }

  lemma NameFrom(path: string, i: nat, e: nat)
    requires i < e <= |path| && Find(path, '/', i) == e
    ensures NamesFrom(path, i)
            == if e == |path| then Success([path[i..e]]) else Prepend([path[i..e]], NamesFrom(path, e + 1))
  {
  }

  /** A path made of clean names is cut back into them. */
  lemma {:induction false} NamesOfPath(prefix: string, names: seq<string>)
    requires names != [] && CleanNames(names)
    ensures NamesFrom(PathOf(prefix, names), |prefix|) == Success(names)
    decreases |names|
  {
    hide Find, PathOf, NamesFrom, Components;
    var path := PathOf(prefix, names);
    var e := |prefix| + |names[0]|;
    FirstComponent(prefix, names);
    FirstNameEnds(prefix, names);
    NameFrom(path, |prefix|, e);
    HeadAndTail(names);
    PathThrough(prefix, names);
    if |names| > 1 {
      NamesOfPath(prefix + names[0] + "/", names[1..]);
      PrependOne([names[0]], names[1..]);
    } else {
      assert [names[0]] == names;
    }
  }

  /** The names of a clean path, whichever provider cuts it. */
  lemma CleanPathIsCut(names: seq<string>)
    requires names != [] && CleanNames(names)
    ensures DirPathNames(PathOf("/", names)) == Success(names)
    ensures Components(PathOf("/", names), 0) == names
  {
    hide Components;
    var path := PathOf("/", names);
    var rest := PathShape("/", names);
    assert path[0] == '/';
    NamesOfPath("/", names);
    SlashIsSkipped(path, 0);
    ComponentsOfPath("/", names);
  }

  /** A doubled slash costs the next name its first character, and where that was all, the whole call. */
  lemma DoubledSlash()
    ensures DirPathNames("/a//bc") == Success(["a", "c"])
    ensures DirPathNames("/a//b") == Failure(OutOfRange)
  {
    var p, q := "/a//bc", "/a//b";
    FindIs(p, '/', 0, 0, "");
    FindIs(p, '/', 1, 2, "a");
    FindIs(p, '/', 3, 3, "");
    FindIs(p, '/', 5, 6, "c");
    FindIs(q, '/', 0, 0, "");
    FindIs(q, '/', 1, 2, "a");
    FindIs(q, '/', 3, 3, "");
    assert NamesFrom(p, 5) == Success(["c"]);
    assert NamesFrom(p, 3) == Success(["c"]);
    assert NamesFrom(p, 1) == Success(["a"] + ["c"]);
    assert ["a"] + ["c"] == ["a", "c"];
    FindIs(q, '/', 5, 5, "");
    assert NamesFrom(q, 5) == NamesFrom(q, 7) == Failure(OutOfRange);
    assert NamesFrom(q, 3) == Failure(OutOfRange);
    assert NamesFrom(q, 1) == Failure(OutOfRange);
  }

  // ---------------------------------------------------------------------------------------------
  // Walking down
  // ---------------------------------------------------------------------------------------------

  datatype Dir = Dir(title: string, id: int)

  /** What browsing a container answers; None where the request fails. */
  type Browse = int -> Option<seq<Dir>>

  function FirstTitled(dirs: seq<Dir>, title: string): (k: nat)
    ensures k <= |dirs|
    ensures k < |dirs| ==> dirs[k].title == title
    ensures forall j :: 0 <= j < k ==> dirs[j].title != title
  {
    if dirs == [] || dirs[0].title == title then 0 else 1 + FirstTitled(dirs[1..], title)
  }

  function NextDir(browse: Browse, id: int, title: string): int {
    match browse(id)
    case None => -1
    case Some(dirs) =>
      var k := FirstTitled(dirs, title);
      if k < |dirs| then dirs[k].id else -1
  }

  /** The container reached by the names, or the first negative id on the way. */
  function Reach(browse: Browse, id: int, names: seq<string>): int
    decreases |names|
  {
    if names == [] then id
    else
      var next := NextDir(browse, id, names[0]);
      if next < 0 then next else Reach(browse, next, names[1..])
  }

  predicate IsStep(browse: Browse, id: int, title: string, next: int) {
    next >= 0 && NextDir(browse, id, title) == next
  }

  /** The ids lead down the names: each is that of the first directory so titled in the one before. */
  predicate IsWalk(browse: Browse, ids: seq<int>, names: seq<string>)
    decreases |names|
  {
    && |ids| == |names| + 1
    && (names != [] ==> IsStep(browse, ids[0], names[0], ids[1]) && IsWalk(browse, ids[1..], names[1..]))
  }

  /** Where a walk ends, the container is reached. */
  lemma {:induction false} WalkReaches(browse: Browse, ids: seq<int>, names: seq<string>)
    requires IsWalk(browse, ids, names)
    ensures Reach(browse, ids[0], names) == ids[|names|]
    decreases |names|
  {
    if names != [] {
      WalkReaches(browse, ids[1..], names[1..]);
    }
  }

  /** A container that is reached is the end of a walk; otherwise the walk stops at a name that is not there. */
  lemma {:induction false} ReachedByWalk(browse: Browse, id: int, names: seq<string>) returns (n: nat, ids: seq<int>)
    requires id >= 0
    ensures n <= |names| && IsWalk(browse, ids, names[..n]) && ids[0] == id
    ensures Reach(browse, id, names) >= 0 ==> n == |names| && ids[n] == Reach(browse, id, names)
    ensures Reach(browse, id, names) < 0 ==>
              n < |names| && NextDir(browse, ids[n], names[n]) == Reach(browse, id, names)
    decreases |names|
  {
    if names == [] || NextDir(browse, id, names[0]) < 0 {
      n, ids := 0, [id];
    } else {
      var m, tail := ReachedByWalk(browse, NextDir(browse, id, names[0]), names[1..]);
      n, ids := m + 1, [id] + tail;
      assert names[..n][1..] == names[1..][..m];
      assert ids[1..] == tail;
    }
  }

  // ---------------------------------------------------------------------------------------------
  // The operation
  // ---------------------------------------------------------------------------------------------

  lemma {:induction false} FindInRest(path: string, i: nat, k: nat)
    requires i <= k <= |path|
    ensures Find(path[i..], '/', k - i) == Find(path, '/', k) - i
    decreases |path| - k
  {
  }

  class UpnpOperation {
    var mDirPathNames: seq<string>

    constructor ()
      ensures mDirPathNames == []
    {
      mDirPathNames := [];
    }

    method GetNextDirId(browse: Browse, pId: int, nextDir: string) returns (id: int)
      ensures id == NextDir(browse, pId, nextDir)
      ensures browse(pId).None? ==> id == -1
      ensures browse(pId).Some? ==>
                var dirs := browse(pId).value;
                || (id == -1 && forall k :: 0 <= k < |dirs| ==> dirs[k].title != nextDir)
                || (exists k :: 0 <= k < |dirs| && dirs[k] == Dir(nextDir, id)
                                && forall j :: 0 <= j < k ==> dirs[j].title != nextDir)
    {
      id := -1;
      var reply := browse(pId);
      if reply.Some? {
        var dirs := reply.value;
        for k := 0 to |dirs|
          invariant id == -1
          invariant FirstTitled(dirs, nextDir) == k + FirstTitled(dirs[k..], nextDir)
        {
          if dirs[k].title == nextDir {
            id := dirs[k].id;
            break;
          }
          assert dirs[k..][1..] == dirs[k + 1..];
        }
      }
    }

    /** The splitting loop, with `size_t` positions that wrap round. */
    method SplitPath(path: string) returns (r: Result<(), Error>)
      requires |path| < NPOS
      modifies this
      ensures match DirPathNames(path)
              case Success(names) => r == Success(()) && mDirPathNames == names
              case Failure(error) => r == Failure(error)
    {
      hide *;
      mDirPathNames := [];
      var temp := path;
      var pos: nat := FindSlash(temp);
      ghost var i: nat := 0;
      FirstTurn(path);
      while pos != NPOS
        invariant i <= |path| && temp == path[i..]
        invariant pos == NPOS ==> DirPathNames(path) == Success(mDirPathNames)
        invariant pos != NPOS ==> DirPathNames(path) == Prepend(mDirPathNames, NamesFrom(path, i + pos + 1))
        decreases |temp|
      {
        if pos + 1 > |temp| {
          BeyondTheEnd(mDirPathNames, path, i + pos + 1);
          return Failure(OutOfRange);
        }
        temp := temp[pos + 1..];
        i := i + pos + 1;
        OneTurn(mDirPathNames, path, i, temp);
        pos := FindSlash(temp);
        var val := if pos == NPOS then temp else temp[..pos];
        if val != "" {
          mDirPathNames := mDirPathNames + [val];
        } else {
          pos := (pos + 1) % (NPOS + 1);
        }
      }
      return Success(());
    }

    method GetContainerId(browse: Browse, path: string) returns (r: Result<int, Error>)
      requires |path| < NPOS
      modifies this
      ensures match DirPathNames(path)
              case Success(names) => r == Success(if names == [] then -1 else Reach(browse, 0, names))
              case Failure(error) => r == Failure(error)
    {
      hide DirPathNames;
      var contId := -1;
      var split := SplitPath(path);
      if split.Failure? {
        return Failure(split.error);
      }
      var id := 0;
      var names := mDirPathNames;
      for k := 0 to |names|
        invariant k > 0 ==> contId == id >= 0
        invariant k == 0 ==> contId == -1 && id == 0
        invariant Reach(browse, id, names[k..]) == Reach(browse, 0, names)
      {
        assert names[k..][1..] == names[k + 1..];
        id := GetNextDirId(browse, id, names[k]);
        contId := id;
        if id < 0 {
          break;
        }
      }
      r := Success(contId);
    }
  }

  lemma PrependNothing(r: Names)
    ensures Prepend([], r) == r
  {
    if r.Success? {
      assert [] + r.value == r.value;
    }
  }

  lemma PrependTwice(names: seq<string>, val: string, r: Names)
    ensures Prepend(names, Prepend([val], r)) == Prepend(names + [val], r)
  {
    if r.Success? {
      assert names + ([val] + r.value) == names + [val] + r.value;
    }
  }

  lemma FirstTurn(path: string)
    requires |path| < NPOS
    ensures var pos := FindSlash(path);
            && (pos == NPOS ==> DirPathNames(path) == Success([]))
            && (pos != NPOS ==> DirPathNames(path) == Prepend([], NamesFrom(path, pos + 1)))
  {
    hide NamesFrom, Prepend, Find;
    PrependNothing(NamesFrom(path, Find(path, '/', 0) + 1));
  }

  lemma BeyondTheEnd(names: seq<string>, path: string, i: nat)
    requires i > |path|
    ensures Prepend(names, NamesFrom(path, i)) == Failure(OutOfRange)
  {
  }

  /** One turn of the loop, seen from the names found so far. */
  lemma OneTurn(names: seq<string>, path: string, i: nat, temp: string)
    requires |path| < NPOS && i <= |path| && temp == path[i..]
    ensures var pos := FindSlash(temp);
            var val := if pos == NPOS then temp else if pos <= |temp| then temp[..pos] else "";
            var found := Prepend(names, NamesFrom(path, i));
            && (pos == NPOS || pos <= |temp|)
            && (val != "" && pos == NPOS ==> found == Success(names + [val]))
            && (val != "" && pos != NPOS ==> found == Prepend(names + [val], NamesFrom(path, i + pos + 1)))
            && (val == "" ==> (pos + 1) % (NPOS + 1) != NPOS &&
                              found == Prepend(names, NamesFrom(path, i + (pos + 1) % (NPOS + 1) + 1)))
  {
    hide Prepend, Find;
    var e := Find(path, '/', i);
    FindInRest(path, i, i);
    assert path[i..][..e - i] == path[i..e];
    assert e < |path| ==> FindSlash(temp) == e - i;
    assert e == |path| ==> FindSlash(temp) == NPOS;
    if e == i {
      if i == |path| {
        BeyondTheEnd(names, path, i + 1);
        BeyondTheEnd(names, path, i + 2);
      }
    } else if e < |path| {
      PrependTwice(names, path[i..e], NamesFrom(path, e + 1));
    } else {
      assert path[i..e] == temp;
      PrependOne(names, [temp]);
    }
  }

  lemma PrependOne(names: seq<string>, more: seq<string>)
    ensures Prepend(names, Success(more)) == Success(names + more)
  {
  }
}
