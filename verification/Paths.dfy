/** Slash-separated paths and the two ways the providers take them apart. */
module Paths {
  import opened Strings

  predicate CleanName(name: string) {
    name != "" && '/' !in name
  }

  ghost predicate CleanNames(names: seq<string>) {
    forall n <- names :: CleanName(n)
  }

  /** The non-empty, slash-free runs of `path` from position `end` on. */
  function Components(path: string, end: nat): seq<string>
    decreases |path| - end
  {
    var start := FindNot(path, '/', end);
    if start == |path| then []
    else
      var e := Find(path, '/', start);
      [path[start..e]] + Components(path, e)
  }

  lemma {:induction false} ComponentsAreClean(path: string, end: nat)
    ensures CleanNames(Components(path, end))
    decreases |path| - end
  {
    var start := FindNot(path, '/', end);
    if start != |path| {
      var e := Find(path, '/', start);
      assert path[start..e][0] == path[start];
      ComponentsAreClean(path, e);
    }
  }

  /**
   `getFilesFromPath`: "root" followed by the components of the path. `end` is `npos` after the
   last component; its length stands for it here, where both searches find nothing either way.
   */
  method GetFilesFromPath(filesVec: seq<string>, path: string) returns (r: seq<string>)
    ensures r == filesVec + ["root"] + Components(path, 0)
  {
    r := filesVec + ["root"];
    var end := 0;
    var start := FindNot(path, '/', end);
    while start != |path|
      invariant start == FindNot(path, '/', end)
      invariant r + Components(path, end) == filesVec + ["root"] + Components(path, 0)
      decreases |path| - end
    {
      end := Find(path, '/', start);
      r := r + [path[start..end]];
      start := FindNot(path, '/', end);
    }
  }

  /** The path reached from a folder whose own path, with a slash after it, is `prefix`. */
  function PathOf(prefix: string, names: seq<string>): string
    requires names != []
    decreases |names|
  {
    if |names| == 1 then prefix + names[0] else PathOf(prefix + names[0] + "/", names[1..])
  }

  lemma PathThrough(prefix: string, names: seq<string>)
    requires names != []
    ensures |names| == 1 ==> PathOf(prefix, names) == prefix + names[0]
    ensures |names| > 1 ==> PathOf(prefix, names) == PathOf(prefix + names[0] + "/", names[1..])
    ensures CleanNames(names) ==> CleanName(names[0]) && CleanNames(names[1..])
  {
  }

  /** A path is its prefix, the first name, and then either nothing or a slash and more. */
  lemma {:induction false} PathShape(prefix: string, names: seq<string>) returns (rest: string)
    requires names != []
    ensures PathOf(prefix, names) == prefix + names[0] + rest
    ensures |names| == 1 ==> rest == ""
    ensures |names| > 1 ==> |rest| > 0 && rest[0] == '/'
    decreases |names|
  {
    if |names| == 1 {
      rest := "";
    } else {
      var more := PathShape(prefix + names[0] + "/", names[1..]);
      rest := "/" + names[1] + more;
      assert prefix + names[0] + rest == prefix + names[0] + "/" + names[1] + more;
    }
  }

  lemma FindIs(s: string, c: char, from: nat, e: nat, mid: string)
    requires from <= e <= |s|
    requires s[from..e] == mid && c !in mid
    requires e == |s| || s[e] == c
    ensures Find(s, c, from) == e
  {
  }

  /** Slash-free names that each end, or meet a slash, at the same place are the same name. */
  lemma SameFirstName(prefix: string, a: string, x: string, b: string, y: string)
    requires '/' !in a && '/' !in b
    requires x == "" || x[0] == '/'
    requires y == "" || y[0] == '/'
    requires prefix + a + x == prefix + b + y
    ensures a == b && x == y
  {
    var s := prefix + a + x;
    var n := |prefix|;
    assert s[n..n + |a|] == a && s[n..n + |b|] == b;
    FindIs(s, '/', n, n + |a|, a);
    FindIs(s, '/', n, n + |b|, b);
    assert s[n + |a|..] == x && s[n + |b|..] == y;
  }

  /** Taking a path apart from just after its prefix gives the names it was made of. */
  lemma {:induction false} ComponentsOfPath(prefix: string, names: seq<string>)
    requires names != [] && CleanNames(names)
    ensures Components(PathOf(prefix, names), |prefix|) == names
    decreases |names|
  {
    hide Find, FindNot, Components;
    var path := PathOf(prefix, names);
    var next := prefix + names[0] + "/";
    if |names| > 1 {
      ComponentsOfPath(next, names[1..]);
    }
    assert |names| > 1 ==> PathOf(next, names[1..]) == path;
    hide PathOf, CleanNames, CleanName;
    FirstComponent(prefix, names);
    if |names| > 1 {
      SlashIsSkipped(path, |next| - 1);
    } else {
      NoneAtEnd(path);
    }
    HeadAndTail(names);
  }

  lemma HeadAndTail(names: seq<string>)
    requires names != []
    ensures [names[0]] + names[1..] == names
  {
  }

  lemma NoneAtEnd(path: string)
    ensures Components(path, |path|) == []
  {
  }

  lemma SlashIsSkipped(path: string, e: nat)
    requires e < |path| && path[e] == '/'
    ensures Components(path, e) == Components(path, e + 1)
  {
  }

  lemma ComponentFrom(path: string, start: nat, e: nat)
    requires start < e <= |path| && path[start] != '/' && e == Find(path, '/', start)
    ensures Components(path, start) == [path[start..e]] + Components(path, e)
  {
  }

  lemma FirstComponent(prefix: string, names: seq<string>)
    requires names != [] && CleanNames(names)
    ensures var path := PathOf(prefix, names); var e := |prefix| + |names[0]|;
            && Components(path, |prefix|) == [names[0]] + Components(path, e)
            && (|names| == 1 ==> e == |path|)
            && (|names| > 1 ==> e < |path| && path[e] == '/')
  {
    assert CleanName(names[0]);
    hide PathOf, Components, Find, FindNot, CleanNames;
    var path := PathOf(prefix, names);
    var rest := PathShape(prefix, names);
    var start := |prefix|;
    var e := start + |names[0]|;
    assert path[start..e] == names[0] && path[start] == names[0][0] && names[0][0] in names[0];
    assert path[e..] == rest;
    FindIs(path, '/', start, e, names[0]);
    ComponentFrom(path, start, e);
  }

  /** Appending one name to a path. */
  lemma {:induction false} PathOfAppend(prefix: string, names: seq<string>, last: string)
    requires names != []
    ensures PathOf(prefix, names + [last]) == PathOf(prefix, names) + "/" + last
    decreases |names|
  {
    var all := names + [last];
    if |names| == 1 {
      assert all[1..] == [last];
      assert all[0] == names[0];
    } else {
      assert all[1..] == names[1..] + [last];
      PathOfAppend(prefix + names[0] + "/", names[1..], last);
    }
  }

  /** Cutting a path at a slash beyond its prefix leaves the path of its first few names. */
  lemma {:induction false} CutAtSlash(prefix: string, names: seq<string>, e: nat) returns (n: nat)
    requires names != [] && CleanNames(names)
    requires |prefix| <= e < |PathOf(prefix, names)| && PathOf(prefix, names)[e] == '/'
    ensures 0 < n < |names|
    ensures PathOf(prefix, names)[..e] == PathOf(prefix, names[..n])
    decreases |names|
  {
    var path := PathOf(prefix, names);
    var rest := PathShape(prefix, names);
    var here := prefix + names[0];
    assert CleanName(names[0]);
    assert path[|prefix|..|here|] == names[0];
    assert forall k :: |prefix| <= k < |here| ==> path[k] == names[0][k - |prefix|];
    if e == |here| {
      n := 1;
      assert path[..e] == here;
      assert names[..1] == [names[0]];
    } else {
      assert |names| > 1;
      var m := CutAtSlash(here + "/", names[1..], e);
      n := m + 1;
      assert names[..n][1..] == names[1..][..m];
    }
  }
}
