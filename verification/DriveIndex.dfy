/**
 The Drive path index: the remote folder graph flattened into a map from full path to file id,
 and the slow walk that looks a path up folder by folder.
 */
module DriveIndex {
  import opened Wrappers
  import opened Strings
  import opened Paths

  /**
   What the remote service answers: the ids of a folder's children, in listing order, and the
   title of each file. A file may be a child of several folders.
   */
  datatype Drive = Drive(children: map<string, seq<string>>, titles: map<string, string>)

  function Listall(d: Drive, id: string): seq<string> {
    if id in d.children then d.children[id] else []
  }

  function Title(d: Drive, id: string): string {
    if id in d.titles then d.titles[id] else ""
  }

  /** The folder graph has no cycle: every child ranks below its folder. */
  ghost predicate Acyclic(d: Drive, rank: string -> nat) {
    forall id, k | k in Listall(d, id) :: rank(k) < rank(id)
  }

  /** Titles are non-empty and slash-free. */
  ghost predicate TitlesAreNames(d: Drive) {
    forall id, k | k in Listall(d, id) :: CleanName(Title(d, k))
  }

  /** Titles are names and differ between the children of one folder. */
  ghost predicate TitlesClean(d: Drive) {
    && TitlesAreNames(d)
    && (forall id, i, j | 0 <= i < j < |Listall(d, id)| :: Title(d, Listall(d, id)[i]) != Title(d, Listall(d, id)[j]))
  }

  /** The place of the first child of the given title, or the number of children. */
  function FirstTitled(d: Drive, kids: seq<string>, title: string): (i: nat)
    ensures i <= |kids|
    ensures i < |kids| ==> Title(d, kids[i]) == title
    ensures forall k :: 0 <= k < i ==> Title(d, kids[k]) != title
  {
    if kids == [] then 0 else if Title(d, kids[0]) == title then 0 else 1 + FirstTitled(d, kids[1..], title)
  }

  function Child(d: Drive, id: string, title: string): Option<string> {
    var kids := Listall(d, id);
    var i := FirstTitled(d, kids, title);
    if i < |kids| then Some(kids[i]) else None
  }

  /** The file reached from folder `id` by a sequence of names. */
  function Resolve(d: Drive, id: string, names: seq<string>): Option<string>
    decreases |names|
  {
    if names == [] then Some(id)
    else
      match Child(d, id, names[0])
      case None => None
      case Some(k) => Resolve(d, k, names[1..])
  }

  /**
   The file the recursion binds to a sequence of names below the first n children of folder `id`:
   of several children of one title the last counts below which the other names lead anywhere.
   */
  function ResolveLast(d: Drive, id: string, names: seq<string>, n: nat): Option<string>
    requires names != [] && n <= |Listall(d, id)|
    decreases |names|, n
  {
    if n == 0 then None
    else
      var k := Listall(d, id)[n - 1];
      if Title(d, k) != names[0] then ResolveLast(d, id, names, n - 1)
      else if |names| == 1 then Some(k)
      else
        match ResolveLast(d, k, names[1..], |Listall(d, k)|)
        case Some(file) => Some(file)
        case None => ResolveLast(d, id, names, n - 1)
  }

  /** What a full path means: "/" is the root, and "/a/b" the file reached from it by "a", "b". */
  function Lookup(d: Drive, path: string): Option<string> {
    if path == "/" then Some("root")
    else
      var names := Components(path, 0);
      if names != [] && PathOf("/", names) == path then Resolve(d, "root", names) else None
  }

  function LookupLast(d: Drive, path: string): Option<string> {
    if path == "/" then Some("root")
    else
      var names := Components(path, 0);
      if names != [] && PathOf("/", names) == path then ResolveLast(d, "root", names, |Listall(d, "root")|) else None
  }

  function Binding(m: map<string, string>, path: string): Option<string> {
    if path in m then Some(m[path]) else None
  }

  /** The index binds exactly the meaningful paths, each to the file it means. */
  ghost predicate Indexes(m: map<string, string>, d: Drive) {
    forall p :: (p in m <==> Lookup(d, p).Some?) && (p in m ==> m[p] == Lookup(d, p).value)
  }

  /** The same where siblings may share titles: each path is bound to the last file it means. */
  ghost predicate IndexesLast(m: map<string, string>, d: Drive) {
    forall p :: (p in m <==> LookupLast(d, p).Some?) && (p in m ==> m[p] == LookupLast(d, p).value)
  }

  // ---------------------------------------------------------------------------------------------
  // What the recursion collects
  // ---------------------------------------------------------------------------------------------

  /** Later bindings override: first those already there, then the child's own path, then what lies below it. */
  ghost function Extend(m: map<string, string>, path: string, id: string, below: map<string, string>)
    : (r: map<string, string>)
    ensures forall p :: p in r <==> p in m || p == path || p in below
    ensures forall p :: p in below ==> r[p] == below[p]
    ensures path !in below ==> r[path] == id
    ensures forall p :: p in m && p != path && p !in below ==> r[p] == m[p]
  {
    m[path := id] + below
  }

  /** The bindings made for the first n children of folder `id`, whose path with its slash is `prefix`. */
  ghost function Collected(d: Drive, id: string, prefix: string, rank: string -> nat, n: nat): map<string, string>
    requires Acyclic(d, rank)
    requires n <= |Listall(d, id)|
    decreases rank(id), n
  {
    if n == 0 then map[]
    else
      var k := Listall(d, id)[n - 1];
      var path := prefix + Title(d, k);
      Extend(Collected(d, id, prefix, rank, n - 1), path, k, CollectedBelow(d, k, path, rank))
  }

  /** The bindings made below the folder `id` of the given path. */
  ghost function CollectedBelow(d: Drive, id: string, path: string, rank: string -> nat): map<string, string>
    requires Acyclic(d, rank)
    decreases rank(id), |Listall(d, id)| + 1
  {
    Collected(d, id, path + "/", rank, |Listall(d, id)|)
  }

  /** The n-th child of a folder has a name for a title, and ranks lower. */
  lemma ChildIsNamed(d: Drive, id: string, rank: string -> nat, n: nat)
    requires Acyclic(d, rank) && TitlesAreNames(d)
    requires n < |Listall(d, id)|
    ensures CleanName(Title(d, Listall(d, id)[n])) && rank(Listall(d, id)[n]) < rank(id)
  {
    assert Listall(d, id)[n] in Listall(d, id);
  }

  /** Every collected key is the path of some names. */
  lemma {:induction false} CollectedIsPath(d: Drive, id: string, prefix: string, rank: string -> nat, n: nat, p: string)
    returns (names: seq<string>)
    requires Acyclic(d, rank) && TitlesAreNames(d)
    requires n <= |Listall(d, id)|
    requires p in Collected(d, id, prefix, rank, n)
    ensures names != [] && CleanNames(names) && p == PathOf(prefix, names)
    decreases rank(id), n
  {
    var k := Listall(d, id)[n - 1];
    var path := prefix + Title(d, k);
    ChildIsNamed(d, id, rank, n - 1);
    hide Acyclic, TitlesAreNames, Extend;
    if p in CollectedBelow(d, k, path, rank) {
      var inner := CollectedIsPath(d, k, path + "/", rank, |Listall(d, k)|, p);
      names := [Title(d, k)] + inner;
      assert names[1..] == inner;
    } else if p == path {
      names := [Title(d, k)];
    } else {
      names := CollectedIsPath(d, id, prefix, rank, n - 1, p);
    }
  }

  /**
   The path of any names is bound to the file they lead to, the last if there are several, and to
   nothing if there is none.
   */
  lemma {:induction false} CollectedExactly(d: Drive, id: string, prefix: string, rank: string -> nat, n: nat,
                                            names: seq<string>)
    requires Acyclic(d, rank) && TitlesAreNames(d)
    requires n <= |Listall(d, id)|
    requires names != [] && CleanNames(names)
    ensures Binding(Collected(d, id, prefix, rank, n), PathOf(prefix, names)) == ResolveLast(d, id, names, n)
    decreases rank(id), n
  {
    hide *;
    var p := PathOf(prefix, names);
    if n == 0 {
      NothingCollected(d, id, prefix, rank, names);
    } else {
      var k := Listall(d, id)[n - 1];
      var path := prefix + Title(d, k);
      ChildIsNamed(d, id, rank, n - 1);
      CollectedStep(d, id, prefix, rank, n, p);
      ResolveLastStep(d, id, names, n);
      PathThrough(prefix, names);
      CollectedExactly(d, id, prefix, rank, n - 1, names);
      if Title(d, k) != names[0] {
        OtherTitleElsewhere(d, k, prefix, rank, names);
      } else if |names| == 1 {
        PathIsNotBelowItself(d, k, path, rank);
      } else {
        CollectedExactly(d, k, path + "/", rank, |Listall(d, k)|, names[1..]);
        BelowIsCollected(d, k, path, rank);
        PathGoesOn(prefix, names);
      }
    }
  }

  lemma NothingCollected(d: Drive, id: string, prefix: string, rank: string -> nat, names: seq<string>)
    requires Acyclic(d, rank) && names != []
    ensures Binding(Collected(d, id, prefix, rank, 0), PathOf(prefix, names)) == ResolveLast(d, id, names, 0)
  {
  }

  lemma ResolveLastStep(d: Drive, id: string, names: seq<string>, n: nat)
    requires names != [] && 0 < n <= |Listall(d, id)|
    ensures var k := Listall(d, id)[n - 1];
            var before := ResolveLast(d, id, names, n - 1);
            ResolveLast(d, id, names, n)
            == if Title(d, k) != names[0] then before
               else if |names| == 1 then Some(k)
               else
                 var inner := ResolveLast(d, k, names[1..], |Listall(d, k)|);
                 if inner.Some? then inner else before
  {
  }

  lemma PathGoesOn(prefix: string, names: seq<string>)
    requires |names| > 1
    ensures PathOf(prefix, names) != prefix + names[0]
  {
    var rest := PathShape(prefix, names);
    assert |PathOf(prefix, names)| > |prefix + names[0]|;
  }

  lemma BelowIsCollected(d: Drive, id: string, path: string, rank: string -> nat)
    requires Acyclic(d, rank)
    ensures CollectedBelow(d, id, path, rank) == Collected(d, id, path + "/", rank, |Listall(d, id)|)
  {
  }

  /** What the n-th child adds to the bindings. */
  lemma CollectedStep(d: Drive, id: string, prefix: string, rank: string -> nat, n: nat, p: string)
    requires Acyclic(d, rank)
    requires 0 < n <= |Listall(d, id)|
    ensures var k := Listall(d, id)[n - 1];
            var path := prefix + Title(d, k);
            var below := Binding(CollectedBelow(d, k, path, rank), p);
            Binding(Collected(d, id, prefix, rank, n), p)
            == if below.Some? then below
               else if p == path then Some(k)
               else Binding(Collected(d, id, prefix, rank, n - 1), p)
    ensures var k := Listall(d, id)[n - 1];
            p !in CollectedBelow(d, k, prefix + Title(d, k), rank)
            <==> Binding(CollectedBelow(d, k, prefix + Title(d, k), rank), p) == None
  {
    hide Extend;
  }

  /** Everything collected below a folder starts with the folder's path and slash, and goes on. */
  lemma CollectedExtendsPrefix(d: Drive, id: string, prefix: string, rank: string -> nat, p: string)
    requires Acyclic(d, rank) && TitlesAreNames(d)
    requires p in Collected(d, id, prefix, rank, |Listall(d, id)|)
    ensures prefix < p
  {
    var names := CollectedIsPath(d, id, prefix, rank, |Listall(d, id)|, p);
    PathExtendsPrefix(prefix, names);
  }

  lemma PathExtendsPrefix(prefix: string, names: seq<string>)
    requires names != [] && CleanNames(names)
    ensures prefix < PathOf(prefix, names)
  {
    var rest := PathShape(prefix, names);
    assert CleanName(names[0]);
    assert prefix + names[0] + rest == prefix + (names[0] + rest);
  }

  lemma PathIsNotBelowItself(d: Drive, k: string, path: string, rank: string -> nat)
    requires Acyclic(d, rank) && TitlesAreNames(d)
    ensures path !in CollectedBelow(d, k, path, rank)
  {
    if path in CollectedBelow(d, k, path, rank) {
      CollectedExtendsPrefix(d, k, path + "/", rank, path);
    }
  }

  /** A path whose first name differs from a child's title is neither that child's path nor below it. */
  lemma OtherTitleElsewhere(d: Drive, k: string, prefix: string, rank: string -> nat, names: seq<string>)
    requires Acyclic(d, rank) && TitlesAreNames(d)
    requires CleanName(Title(d, k))
    requires names != [] && CleanNames(names) && names[0] != Title(d, k)
    ensures PathOf(prefix, names) != prefix + Title(d, k)
    ensures PathOf(prefix, names) !in CollectedBelow(d, k, prefix + Title(d, k), rank)
  {
    var p := PathOf(prefix, names);
    var path := prefix + Title(d, k);
    PathsPart(prefix, names, Title(d, k));
    if p in CollectedBelow(d, k, path, rank) {
      CollectedExtendsPrefix(d, k, path + "/", rank, p);
    }
  }

  lemma PathsPart(prefix: string, names: seq<string>, title: string)
    requires CleanName(title)
    requires names != [] && CleanNames(names) && names[0] != title
    ensures PathOf(prefix, names) != prefix + title
    ensures !(prefix + title + "/" < PathOf(prefix, names))
  {
    var p := PathOf(prefix, names);
    var rest := PathShape(prefix, names);
    assert CleanName(names[0]);
    if prefix + title + "/" < p {
      var y := p[|prefix + title|..];
      assert p == prefix + title + y;
      SameFirstName(prefix, names[0], rest, title, y);
    } else if p == prefix + title {
      assert p == prefix + title + "";
      SameFirstName(prefix, names[0], rest, title, "");
    }
  }

  lemma FirstOfItsTitle(d: Drive, id: string, n: nat, title: string)
    requires TitlesClean(d) && n < |Listall(d, id)|
    ensures Title(d, Listall(d, id)[n]) == title <==> FirstTitled(d, Listall(d, id), title) == n
  {
    var i := FirstTitled(d, Listall(d, id), title);
    if Title(d, Listall(d, id)[n]) == title {
      assert i <= n;
    }
  }

  /** With distinct titles the last file some names lead to is the only one. */
  lemma {:induction false} LastIsOnly(d: Drive, id: string, names: seq<string>, n: nat)
    requires TitlesClean(d)
    requires names != [] && n <= |Listall(d, id)|
    ensures var i := FirstTitled(d, Listall(d, id), names[0]);
            ResolveLast(d, id, names, n) == if i < n then Resolve(d, Listall(d, id)[i], names[1..]) else None
    decreases |names|, n
  {
    hide TitlesClean, ResolveLast, Resolve, FirstTitled, Listall, Title;
    if n == 0 {
      NoneAmongNone(d, id, names);
    } else {
      var k := Listall(d, id)[n - 1];
      LastIsOnly(d, id, names, n - 1);
      ResolveLastStep(d, id, names, n);
      FirstOfItsTitle(d, id, n - 1, names[0]);
      if |names| > 1 {
        LastIsOnly(d, k, names[1..], |Listall(d, k)|);
        ResolveThrough(d, k, names[1..]);
      } else {
        ResolveNothing(d, k, names[1..]);
      }
    }
  }

  lemma NoneAmongNone(d: Drive, id: string, names: seq<string>)
    requires names != []
    ensures ResolveLast(d, id, names, 0) == None
  {
  }

  lemma ResolveNothing(d: Drive, id: string, names: seq<string>)
    requires names == []
    ensures Resolve(d, id, names) == Some(id)
  {
  }

  lemma ResolveThrough(d: Drive, id: string, names: seq<string>)
    requires names != []
    ensures var i := FirstTitled(d, Listall(d, id), names[0]);
            Resolve(d, id, names)
            == if i < |Listall(d, id)| then Resolve(d, Listall(d, id)[i], names[1..]) else None
  {
  }

  /** A path, taken as a key, is bound below the root to what it means. */
  lemma CollectedMeaning(d: Drive, rank: string -> nat, p: string)
    requires Acyclic(d, rank) && TitlesAreNames(d)
    ensures Binding(Collected(d, "root", "/", rank, |Listall(d, "root")|), p)
            == if p == "/" then None else LookupLast(d, p)
  {
    var n := |Listall(d, "root")|;
    var m := Collected(d, "root", "/", rank, n);
    hide Collected, ResolveLast, Resolve, Acyclic, TitlesAreNames, Components, PathOf;
    if p in m {
      var names := CollectedIsPath(d, "root", "/", rank, n, p);
      ComponentsOfRootPath(names);
      CollectedExactly(d, "root", "/", rank, n, names);
    } else {
      var names := Components(p, 0);
      if names != [] && PathOf("/", names) == p {
        ComponentsAreClean(p, 0);
        CollectedExactly(d, "root", "/", rank, n, names);
      }
    }
  }

  lemma LastMeaningIsOnly(d: Drive, p: string)
    requires TitlesClean(d)
    ensures LookupLast(d, p) == Lookup(d, p)
  {
    hide ResolveLast, Resolve, TitlesClean;
    var names := Components(p, 0);
    if names != [] {
      LastIsOnly(d, "root", names, |Listall(d, "root")|);
      ResolveThrough(d, "root", names);
    }
  }

  /** Clearing the index, binding "/" and collecting below the root gives exactly the meaningful paths. */
  lemma CollectedIndexes(d: Drive, rank: string -> nat)
    requires Acyclic(d, rank) && TitlesAreNames(d)
    ensures var m := map["/" := "root"] + Collected(d, "root", "/", rank, |Listall(d, "root")|);
            IndexesLast(m, d) && (TitlesClean(d) ==> Indexes(m, d))
  {
    var below := Collected(d, "root", "/", rank, |Listall(d, "root")|);
    var m := map["/" := "root"] + below;
    hide Collected, Acyclic, TitlesAreNames, TitlesClean, Lookup, LookupLast;
    RootMeansRoot(d);
    forall p
      ensures Binding(m, p) == LookupLast(d, p)
      ensures TitlesClean(d) ==> LookupLast(d, p) == Lookup(d, p)
    {
      CollectedMeaning(d, rank, p);
      if TitlesClean(d) {
        LastMeaningIsOnly(d, p);
      }
    }
    BoundExactly(m, d);
  }

  lemma RootMeansRoot(d: Drive)
    ensures Lookup(d, "/") == LookupLast(d, "/") == Some("root")
  {
  }

  lemma BoundExactly(m: map<string, string>, d: Drive)
    ensures (forall p :: Binding(m, p) == LookupLast(d, p)) ==> IndexesLast(m, d)
    ensures (forall p :: Binding(m, p) == LookupLast(d, p) == Lookup(d, p)) ==> Indexes(m, d)
  {
    hide Lookup, LookupLast;
    if forall p :: Binding(m, p) == LookupLast(d, p) {
      forall p
        ensures (p in m <==> LookupLast(d, p).Some?) && (p in m ==> m[p] == LookupLast(d, p).value)
      {
        assert Binding(m, p) == LookupLast(d, p);
      }
    }
  }

  lemma ComponentsOfRootPath(names: seq<string>)
    requires names != [] && CleanNames(names)
    ensures Components(PathOf("/", names), 0) == names
    ensures |PathOf("/", names)| > 1 && PathOf("/", names)[0] == '/' && PathOf("/", names)[1] != '/'
  {
    var p := PathOf("/", names);
    ComponentsOfPath("/", names);
    var rest := PathShape("/", names);
    assert CleanName(names[0]);
    assert p[0] == '/' && p[1] == names[0][0] && names[0][0] in names[0];
    assert FindNot(p, '/', 0) == FindNot(p, '/', 1);
  }

  // ---------------------------------------------------------------------------------------------
  // The slow walk
  // ---------------------------------------------------------------------------------------------

  /**
   What `getFileID` computes: a name that matches no child is skipped and the search goes on in
   the same folder; only the last name has to match.
   */
  function SkipWalk(d: Drive, id: string, names: seq<string>): string
    decreases |names|
  {
    if names == [] then ""
    else
      match Child(d, id, names[0])
      case Some(k) => if |names| == 1 then k else SkipWalk(d, k, names[1..])
      case None => SkipWalk(d, id, names[1..])
  }

  /** Where every name matches, the walk arrives at the file the names resolve to. */
  lemma {:induction false} WalkFollowsResolve(d: Drive, id: string, names: seq<string>)
    requires names != []
    requires Resolve(d, id, names).Some?
    ensures SkipWalk(d, id, names) == Resolve(d, id, names).value
    decreases |names|
  {
    var k := Child(d, id, names[0]).value;
    if |names| > 1 {
      WalkFollowsResolve(d, k, names[1..]);
    }
  }

  /** `getFileId`, on the index as a value. */
  function IndexLookup(m: map<string, string>, path: string): string {
    if path in m then m[path] else ""
  }

  /** Every indexed path but "/" is found by the walk too, and both give the same id. */
  lemma IndexAgreesWithWalk(d: Drive, m: map<string, string>, path: string)
    requires Indexes(m, d)
    requires path in m && path != "/"
    ensures IndexLookup(m, path) == SkipWalk(d, "root", Components(path, 0))
  {
    WalkFollowsResolve(d, "root", Components(path, 0));
  }

  /**
   The part of the names, as a path, that the index follows when it passes over each name that
   leads nowhere from the path kept so far; "" is the root.
   */
  function Kept(m: map<string, string>, path: string, names: seq<string>): string
    decreases |names|
  {
    if names == [] then path
    else
      var next := path + "/" + names[0];
      Kept(m, if next in m then next else path, names[1..])
  }

  /** The path stands for the folder: "" for the root, any other for the file the index binds to it. */
  ghost predicate StandsFor(m: map<string, string>, path: string, id: string) {
    (path == "" && id == "root") || (path != "/" && path in m && m[path] == id)
  }

  /** The index knows the children of every folder it knows. */
  lemma ChildByIndex(d: Drive, m: map<string, string>, path: string, id: string, title: string)
    requires Indexes(m, d) && StandsFor(m, path, id) && CleanName(title)
    ensures Binding(m, path + "/" + title) == Child(d, id, title)
    ensures path + "/" + title != "/"
  {
    if path == "" {
      ComponentsOfRootPath([title]);
      assert "" + "/" + title == PathOf("/", [title]);
      assert Resolve(d, "root", [title]) == Child(d, "root", title);
    } else {
      DirectChildrenAreTheFolders(d, m, path, title);
      ChildPath(path, title);
    }
  }

  lemma ChildPath(path: string, title: string)
    requires path != "/" && CleanName(title)
    ensures IsChildPath(path + "/" + title, path) && path + "/" + title != "/"
  {
    var key := path + "/" + title;
    assert key[|path + "/"|..] == title;
  }

  /** What the walk finds can be read off the index: it is bound to the last name below the path kept of the others. */
  lemma {:induction false} WalkByIndex(d: Drive, m: map<string, string>, path: string, id: string, names: seq<string>)
    requires Indexes(m, d) && StandsFor(m, path, id)
    requires names != [] && CleanNames(names)
    ensures SkipWalk(d, id, names)
            == IndexLookup(m, Kept(m, path, names[..|names| - 1]) + "/" + names[|names| - 1])
    decreases |names|
  {
    hide Indexes, Child;
    assert CleanName(names[0]);
    ChildByIndex(d, m, path, id, names[0]);
    if |names| > 1 {
      var next := path + "/" + names[0];
      var init := names[..|names| - 1];
      assert init[1..] == names[1..][..|names| - 2];
      if next in m {
        WalkByIndex(d, m, next, m[next], names[1..]);
      } else {
        WalkByIndex(d, m, path, id, names[1..]);
      }
    } else {
      assert SkipWalk(d, id, names[1..]) == "";
    }
  }

  /**
   For any string at all the two lookups agree exactly when it is an indexed path other than "/", or
   it is not indexed and the index binds nothing to its last name below the path kept of the others.
   */
  lemma IndexAgreesWithWalkExactly(d: Drive, m: map<string, string>, path: string)
    requires Indexes(m, d)
    ensures var names := Components(path, 0);
            IndexLookup(m, path) == SkipWalk(d, "root", names)
            <==> path != "/" &&
                 (path in m || names == [] ||
                  IndexLookup(m, Kept(m, "", names[..|names| - 1]) + "/" + names[|names| - 1]) == "")
  {
    var names := Components(path, 0);
    if path == "/" {
      assert FindNot(path, '/', 0) == FindNot(path, '/', 1) == 1;
      assert Lookup(d, "/") == Some("root");
    } else if path in m {
      IndexAgreesWithWalk(d, m, path);
    } else if names != [] {
      ComponentsAreClean(path, 0);
      WalkByIndex(d, m, "", "root", names);
    }
  }

  /** Nothing is passed over on the way to an indexed path. */
  lemma {:induction false} IndexedIsKept(m: map<string, string>, d: Drive, names: seq<string>, n: nat)
    requires Indexes(m, d) && CleanNames(names) && n <= |names|
    requires names != [] && PathOf("/", names) in m
    ensures Kept(m, "", names[..n]) == if n == 0 then "" else PathOf("/", names[..n])
    ensures n > 0 ==> PathOf("/", names[..n]) in m
    decreases n
  {
    hide *;
    if n == 0 {
      assert names[..0] == [];
      KeptNothing(m);
    } else {
      var init, last := names[..n - 1], names[n - 1];
      IndexedIsKept(m, d, names, n - 1);
      PrefixIsIndexed(m, d, names, n);
      KeptSnoc(m, "", init, last);
      assert init + [last] == names[..n];
      if n > 1 {
        PathOfAppend("/", init, last);
      } else {
        assert names[..1] == [last];
        PathOfOne(last);
      }
    }
  }

  lemma KeptNothing(m: map<string, string>)
    ensures Kept(m, "", []) == ""
  {
  }

  lemma PathOfOne(name: string)
    ensures PathOf("/", [name]) == "" + "/" + name
  {
  }

  lemma {:induction false} KeptSnoc(m: map<string, string>, path: string, names: seq<string>, last: string)
    ensures var kept := Kept(m, path, names); var next := kept + "/" + last;
            Kept(m, path, names + [last]) == if next in m then next else kept
    decreases |names|
  {
    var all := names + [last];
    if names != [] {
      var next := path + "/" + names[0];
      assert all[1..] == names[1..] + [last];
      KeptSnoc(m, if next in m then next else path, names[1..], last);
    } else {
      assert all[1..] == [];
    }
  }

  lemma PrefixIsIndexed(m: map<string, string>, d: Drive, names: seq<string>, n: nat)
    requires Indexes(m, d) && CleanNames(names) && 0 < n <= |names|
    requires PathOf("/", names) in m
    ensures PathOf("/", names[..n]) in m
  {
    ComponentsOfRootPath(names);
    ComponentsOfRootPath(names[..n]);
    ResolvePrefix(d, "root", names, n);
  }

  /** Below a folder that is indexed, the root among them, the two lookups agree on every name, present or absent. */
  lemma AgreeInIndexedFolder(d: Drive, m: map<string, string>, names: seq<string>, last: string)
    requires Indexes(m, d) && CleanNames(names) && CleanName(last)
    requires names == [] || PathOf("/", names) in m
    ensures var path := PathOf("/", names + [last]);
            IndexLookup(m, path) == SkipWalk(d, "root", Components(path, 0))
  {
    var all := names + [last];
    assert CleanNames(all);
    ComponentsOfRootPath(all);
    WalkByIndex(d, m, "", "root", all);
    assert all[..|all| - 1] == names;
    if names != [] {
      IndexedIsKept(m, d, names, |names|);
      assert names[..|names|] == names;
      PathOfAppend("/", names, last);
    } else {
      assert all == [last];
      PathOfOne(last);
    }
  }

  /** The walk can find a file under a path that does not exist: "/x/a" where only "/a" does. */
  lemma WalkFindsAbsentPath()
    ensures var d := Drive(map["root" := ["1"]], map["1" := "a"]);
            Lookup(d, "/x/a").None? && SkipWalk(d, "root", Components("/x/a", 0)) == "1"
  {
    var d := Drive(map["root" := ["1"]], map["1" := "a"]);
    var names := ["x", "a"];
    assert PathOf("/", names) == "/x/a" by {
      assert names[1..] == ["a"];
      assert PathOf("/x/", ["a"]) == "/x/a";
    }
    ComponentsOfRootPath(names);
    assert FirstTitled(d, ["1"], "x") == 1 + FirstTitled(d, [], "x");
    assert Child(d, "root", "x") == None;
    assert Child(d, "root", "a") == Some("1");
    assert SkipWalk(d, "root", names[1..]) == "1";
  }

  /** The place of the last child of the given title, or the number of children. */
  function LastTitled(d: Drive, kids: seq<string>, title: string): (i: nat)
    ensures i <= |kids|
    ensures i < |kids| ==> Title(d, kids[i]) == title
    ensures forall k :: (if i < |kids| then i else -1) < k < |kids| ==> Title(d, kids[k]) != title
  {
    if kids == [] then 0
    else if Title(d, kids[|kids| - 1]) == title then |kids| - 1
    else
      var i := LastTitled(d, kids[..|kids| - 1], title);
      if i == |kids| - 1 then |kids| else i
  }

  function LastChild(d: Drive, id: string, title: string): Option<string> {
    var kids := Listall(d, id);
    var i := LastTitled(d, kids, title);
    if i < |kids| then Some(kids[i]) else None
  }

  /** On the way down the names, each is the title of exactly one child. */
  predicate Unambiguous(d: Drive, id: string, names: seq<string>)
    decreases |names|
  {
    names == [] ||
    var kids := Listall(d, id);
    var i := FirstTitled(d, kids, names[0]);
    i < |kids| && i == LastTitled(d, kids, names[0]) && Unambiguous(d, kids[i], names[1..])
  }

  lemma {:induction false} LastOfOneName(d: Drive, id: string, title: string, n: nat)
    requires n <= |Listall(d, id)|
    ensures var i := LastTitled(d, Listall(d, id)[..n], title);
            ResolveLast(d, id, [title], n) == if i < n then Some(Listall(d, id)[i]) else None
  {
    if n > 0 {
      LastOfOneName(d, id, title, n - 1);
      assert Listall(d, id)[..n][..n - 1] == Listall(d, id)[..n - 1];
    }
  }

  lemma {:induction false} LastThroughOnlyChild(d: Drive, id: string, names: seq<string>, n: nat, j: nat)
    requires |names| > 1 && n <= |Listall(d, id)| && j < |Listall(d, id)|
    requires forall i :: 0 <= i < |Listall(d, id)| ==> (Title(d, Listall(d, id)[i]) == names[0] <==> i == j)
    ensures var k := Listall(d, id)[j];
            ResolveLast(d, id, names, n) == if n <= j then None else ResolveLast(d, k, names[1..], |Listall(d, k)|)
    decreases n
  {
    if n > 0 {
      LastThroughOnlyChild(d, id, names, n - 1, j);
    }
  }

  lemma {:induction false} LastInUnambiguousFolder(d: Drive, id: string, names: seq<string>, title: string)
    requires Unambiguous(d, id, names)
    ensures Resolve(d, id, names).Some?
    ensures ResolveLast(d, id, names + [title], |Listall(d, id)|) == LastChild(d, Resolve(d, id, names).value, title)
    decreases |names|
  {
    var all := names + [title];
    var kids := Listall(d, id);
    if names == [] {
      LastOfOneName(d, id, title, |kids|);
      assert kids[..|kids|] == kids && all == [title];
    } else {
      var j := FirstTitled(d, kids, names[0]);
      assert all[0] == names[0] && all[1..] == names[1..] + [title];
      LastInUnambiguousFolder(d, kids[j], names[1..], title);
      LastThroughOnlyChild(d, id, all, |kids|, j);
    }
  }

  lemma {:induction false} WalkInFolder(d: Drive, id: string, names: seq<string>, title: string)
    requires Resolve(d, id, names).Some?
    ensures var c := Child(d, Resolve(d, id, names).value, title);
            SkipWalk(d, id, names + [title]) == if c.Some? then c.value else ""
    decreases |names|
  {
    var all := names + [title];
    if names == [] {
      assert all == [title] && all[1..] == [];
    } else {
      assert all[0] == names[0] && all[1..] == names[1..] + [title];
      WalkInFolder(d, Child(d, id, names[0]).value, names[1..], title);
    }
  }

  lemma ChildAndLastChild(d: Drive, id: string, title: string)
    ensures Child(d, id, title).Some? <==> LastChild(d, id, title).Some?
  {
  }

  /**
   Where siblings may share titles, index and walk agree on a title in a folder reached by
   unambiguous names exactly when the first and the last child of that title are the same file, or
   there is none: the index keeps the last and the walk takes the first.
   */
  lemma RepeatedTitlesAgreeExactly(d: Drive, m: map<string, string>, names: seq<string>, title: string)
    requires IndexesLast(m, d)
    requires CleanNames(names) && CleanName(title) && Unambiguous(d, "root", names)
    ensures Resolve(d, "root", names).Some?
    ensures var path := PathOf("/", names + [title]);
            var folder := Resolve(d, "root", names).value;
            && IndexLookup(m, path) == IdOrEmpty(LastChild(d, folder, title))
            && SkipWalk(d, "root", Components(path, 0)) == IdOrEmpty(Child(d, folder, title))
            && (IndexLookup(m, path) == SkipWalk(d, "root", Components(path, 0))
                <==> Child(d, folder, title) == LastChild(d, folder, title))
  {
    var all := names + [title];
    assert CleanNames(all);
    ComponentsOfRootPath(all);
    LastInUnambiguousFolder(d, "root", names, title);
    WalkInFolder(d, "root", names, title);
    ChildAndLastChild(d, Resolve(d, "root", names).value, title);
    assert LookupLast(d, PathOf("/", all)) == ResolveLast(d, "root", all, |Listall(d, "root")|);
  }

  /** Some way down the names, through any of the children so titled, ends at the file. */
  ghost predicate Leads(d: Drive, id: string, names: seq<string>, file: string)
    decreases |names|
  {
    if names == [] then id == file
    else exists k <- Listall(d, id) :: Title(d, k) == names[0] && Leads(d, k, names[1..], file)
  }

  lemma {:induction false} ResolvedLeads(d: Drive, id: string, names: seq<string>)
    requires Resolve(d, id, names).Some?
    ensures Leads(d, id, names, Resolve(d, id, names).value)
    decreases |names|
  {
    if names != [] {
      var k := Child(d, id, names[0]).value;
      assert k in Listall(d, id);
      ResolvedLeads(d, k, names[1..]);
    }
  }

  lemma {:induction false} LastLeads(d: Drive, id: string, names: seq<string>, n: nat)
    requires names != [] && n <= |Listall(d, id)|
    requires ResolveLast(d, id, names, n).Some?
    ensures Leads(d, id, names, ResolveLast(d, id, names, n).value)
    decreases |names|, n
  {
    var k := Listall(d, id)[n - 1];
    assert k in Listall(d, id);
    if Title(d, k) != names[0] {
      LastLeads(d, id, names, n - 1);
    } else if |names| == 1 {
      assert Leads(d, k, names[1..], k);
    } else if ResolveLast(d, k, names[1..], |Listall(d, k)|).Some? {
      LastLeads(d, k, names[1..], |Listall(d, k)|);
    } else {
      LastLeads(d, id, names, n - 1);
    }
  }

  lemma {:induction false} ResolvedIsBound(d: Drive, id: string, names: seq<string>, n: nat)
    requires names != [] && Resolve(d, id, names).Some?
    requires FirstTitled(d, Listall(d, id), names[0]) < n <= |Listall(d, id)|
    ensures ResolveLast(d, id, names, n).Some?
    decreases |names|, n
  {
    hide ResolveLast, Resolve, FirstTitled, Listall, Title;
    var k := Listall(d, id)[n - 1];
    ResolveLastStep(d, id, names, n);
    if FirstTitled(d, Listall(d, id), names[0]) < n - 1 {
      ResolvedIsBound(d, id, names, n - 1);
    } else if |names| > 1 {
      ResolveThrough(d, id, names);
      ResolveThrough(d, k, names[1..]);
      ResolvedIsBound(d, k, names[1..], |Listall(d, k)|);
    }
  }

  /**
   Below folders that share titles: where the first children down the names exist, index and walk
   agree exactly when the last file the names lead to is the first. They do where all ways lead to
   one file.
   */
  lemma SharedTitlesAgreeExactly(d: Drive, m: map<string, string>, names: seq<string>)
    requires IndexesLast(m, d) && names != [] && CleanNames(names)
    requires Resolve(d, "root", names).Some?
    ensures var path := PathOf("/", names);
            var first, last := Resolve(d, "root", names), ResolveLast(d, "root", names, |Listall(d, "root")|);
            && last.Some? && Leads(d, "root", names, first.value) && Leads(d, "root", names, last.value)
            && IndexLookup(m, path) == last.value && SkipWalk(d, "root", Components(path, 0)) == first.value
            && (IndexLookup(m, path) == SkipWalk(d, "root", Components(path, 0)) <==> first == last)
    ensures (forall f, g :: Leads(d, "root", names, f) && Leads(d, "root", names, g) ==> f == g) ==>
              IndexLookup(m, PathOf("/", names)) == SkipWalk(d, "root", Components(PathOf("/", names), 0))
  {
    var n := |Listall(d, "root")|;
    ComponentsOfRootPath(names);
    ResolveThrough(d, "root", names);
    ResolvedIsBound(d, "root", names, n);
    ResolvedLeads(d, "root", names);
    LastLeads(d, "root", names, n);
    WalkFollowsResolve(d, "root", names);
    assert LookupLast(d, PathOf("/", names)) == ResolveLast(d, "root", names, n);
  }

  function IdOrEmpty(id: Option<string>): string {
    if id.Some? then id.value else ""
  }

  /** With two siblings of one title the index keeps the last and the walk takes the first. */
  lemma SameTitleSiblings()
    ensures var d := Drive(map["root" := ["1", "2"]], map["1" := "a", "2" := "a"]);
            var rank := id => if id == "root" then 1 else 0;
            && Acyclic(d, rank)
            && "/a" in Collected(d, "root", "/", rank, 2) && Collected(d, "root", "/", rank, 2)["/a"] == "2"
            && SkipWalk(d, "root", Components("/a", 0)) == "1"
  {
    var d := Drive(map["root" := ["1", "2"]], map["1" := "a", "2" := "a"]);
    var rank := id => if id == "root" then 1 else 0;
    assert CollectedBelow(d, "2", "/a", rank) == map[];
    assert PathOf("/", ["a"]) == "/a";
    ComponentsOfRootPath(["a"]);
    assert Child(d, "root", "a") == Some("1");
  }

  // ---------------------------------------------------------------------------------------------
  // Listing a folder by string search
  // ---------------------------------------------------------------------------------------------

  /** The test `getFileMap` puts to a key: the path occurs in it, and no slash follows one place further on. */
  predicate Listed(key: string, path: string) {
    && key != path
    && var pos := FindSub(key, path, 0);
       pos <= |key| && Find(key, '/', pos + |path| + 1) == |key|
  }

  function FileMap(m: map<string, string>, path: string): map<string, string> {
    if path == "" then m else map k | k in m && Listed(k, path) :: m[k]
  }

  /** The bindings of the files directly inside the folder of that path. */
  function DirectChildren(m: map<string, string>, path: string): map<string, string> {
    map k | k in m && IsChildPath(k, path) :: m[k]
  }

  predicate IsChildPath(key: string, path: string) {
    var prefix := if path == "/" then "/" else path + "/";
    prefix <= key && CleanName(key[|prefix|..])
  }

  /** "At or below path". */
  predicate AtOrBelow(key: string, path: string) {
    key == path || path + "/" <= key
  }

  /** Cutting a key at one of its inner slashes leaves a key. */
  ghost predicate PrefixClosed(m: map<string, string>) {
    forall k, e | k in m && 0 < e < |k| && k[e] == '/' :: k[..e] in m
  }

  /** No key but "/" ends in a slash. */
  ghost predicate EndsClean(m: map<string, string>) {
    forall k | k in m && k != "/" :: k != "" && k[|k| - 1] != '/'
  }

  lemma IndexShape(d: Drive, m: map<string, string>)
    requires Indexes(m, d)
    ensures PrefixClosed(m) && EndsClean(m)
  {
    forall k, e | k in m && 0 < e < |k| && k[e] == '/'
      ensures k[..e] in m
    {
      MeaningfulPrefix(d, k, e);
    }
    forall k | k in m && k != "/"
      ensures k != "" && k[|k| - 1] != '/'
    {
      ComponentsAreClean(k, 0);
      LastIsNoSlash("/", Components(k, 0));
    }
  }

  lemma MeaningfulPrefix(d: Drive, key: string, e: nat)
    requires Lookup(d, key).Some?
    requires 0 < e < |key| && key[e] == '/'
    ensures Lookup(d, key[..e]).Some?
  {
    var names := Components(key, 0);
    ComponentsAreClean(key, 0);
    var n := CutAtSlash("/", names, e);
    var head := names[..n];
    assert CleanNames(head);
    ComponentsOfRootPath(head);
    ResolvePrefix(d, "root", names, n);
  }

  lemma {:induction false} LastIsNoSlash(prefix: string, names: seq<string>)
    requires names != [] && CleanNames(names)
    ensures var p := PathOf(prefix, names); p != "" && p[|p| - 1] != '/'
    decreases |names|
  {
    assert CleanName(names[0]);
    if |names| == 1 {
      var p := prefix + names[0];
      assert p[|p| - 1] == names[0][|names[0]| - 1] && p[|p| - 1] in names[0];
    } else {
      LastIsNoSlash(prefix + names[0] + "/", names[1..]);
    }
  }

  lemma {:induction false} ResolvePrefix(d: Drive, id: string, names: seq<string>, n: nat)
    requires n <= |names|
    requires Resolve(d, id, names).Some?
    ensures Resolve(d, id, names[..n]).Some?
    ensures Resolve(d, Resolve(d, id, names[..n]).value, names[n..]) == Resolve(d, id, names)
    decreases |names|
  {
    if n > 0 {
      var k := Child(d, id, names[0]).value;
      ResolvePrefix(d, k, names[1..], n - 1);
      assert names[..n][1..] == names[1..][..n - 1];
      assert names[n..] == names[1..][n - 1..];
    } else {
      assert names[0..] == names;
    }
  }

  /** A direct child always passes the test. */
  lemma ChildIsListed(key: string, path: string)
    requires path != "" && path != "/"
    requires IsChildPath(key, path)
    ensures Listed(key, path)
  {
  }

  /** Listing a folder never misses one of its children. */
  lemma ListingIsComplete(m: map<string, string>, path: string)
    requires path != "" && path != "/"
    ensures forall k :: k in DirectChildren(m, path) ==> k in FileMap(m, path) && FileMap(m, path)[k] == m[k]
  {
  }

  /** For the root the listing is exactly the set of direct children. */
  lemma RootListingIsExact(d: Drive, m: map<string, string>)
    requires Indexes(m, d)
    ensures FileMap(m, "/") == DirectChildren(m, "/")
  {
    forall k | k in m
      ensures Listed(k, "/") <==> IsChildPath(k, "/")
    {
      if k != "/" {
        var names := Components(k, 0);
        ComponentsAreClean(k, 0);
        ComponentsOfRootPath(names);
        assert OccursAt(k, "/", 0);
        assert FindSub(k, "/", 0) == 0;
        TailIsClean(k);
      }
    }
  }

  lemma TailIsClean(k: string)
    requires |k| > 1 && k[1] != '/'
    ensures CleanName(k[1..]) <==> Find(k, '/', 2) == |k|
  {
  }

  /**
   For any other path the listing is the set of direct children exactly when the path occurs only
   in keys at or below it.
   */
  lemma ListingIsExactWhen(d: Drive, m: map<string, string>, path: string)
    requires Indexes(m, d)
    requires path != "" && path != "/"
    ensures FileMap(m, path) == DirectChildren(m, path)
            <==> forall k | k in m && Contains(k, path) :: AtOrBelow(k, path)
  {
    IndexShape(d, m);
    ListingIsExactWhenClosed(m, path);
  }

  lemma ListingIsExactWhenClosed(m: map<string, string>, path: string)
    requires PrefixClosed(m) && EndsClean(m)
    requires path != "" && path != "/"
    ensures FileMap(m, path) == DirectChildren(m, path)
            <==> forall k | k in m && Contains(k, path) :: AtOrBelow(k, path)
  {
    if forall k | k in m && Contains(k, path) :: AtOrBelow(k, path) {
      forall k | k in m
        ensures Listed(k, path) <==> IsChildPath(k, path)
      {
        if Listed(k, path) {
          FindSubFindsAll(k, path);
          ListedBelowIsChild(k, path);
        }
        if IsChildPath(k, path) {
          ChildIsListed(k, path);
        }
      }
    } else {
      var k :| k in m && Contains(k, path) && !AtOrBelow(k, path);
      var stray := Stray(m, k, path);
      assert stray in FileMap(m, path) && stray !in DirectChildren(m, path);
    }
  }

  lemma ListedBelowIsChild(k: string, path: string)
    requires path != "" && path != "/" && k != "" && k[|k| - 1] != '/'
    requires Listed(k, path) && path + "/" <= k
    ensures IsChildPath(k, path)
  {
  }

  /** A key elsewhere that contains the path leads to a listed key that is no child of it. */
  lemma Stray(m: map<string, string>, k: string, path: string) returns (stray: string)
    requires PrefixClosed(m)
    requires path != "" && path != "/"
    requires k in m && Contains(k, path) && !AtOrBelow(k, path)
    ensures stray in m && Listed(stray, path) && !IsChildPath(stray, path)
  {
    FindSubFindsAll(k, path);
    var e := Find(k, '/', FindSub(k, path, 0) + |path|);
    CutIsListed(k, path, e);
    stray := k[..e];
    assert e == |k| ==> stray == k;
  }

  lemma CutIsListed(k: string, path: string, e: nat)
    requires path != "" && path != "/" && !AtOrBelow(k, path)
    requires FindSub(k, path, 0) <= |k| && e == Find(k, '/', FindSub(k, path, 0) + |path|)
    ensures Listed(k[..e], path) && !IsChildPath(k[..e], path)
  {
    hide Find, FindSub;
    var end := FindSub(k, path, 0) + |path|;
    CutIsElsewhere(k, path, e);
    FirstOccurrenceInPrefix(k, path, e);
    assert k[..e][end..] == k[end..e];
    TailHasNoSlash(k[..e], end);
  }

  lemma CutIsElsewhere(k: string, path: string, e: nat)
    requires path != "" && path != "/" && !AtOrBelow(k, path)
    requires FindSub(k, path, 0) <= |k| && e == Find(k, '/', FindSub(k, path, 0) + |path|)
    ensures k[..e] != path && !(path + "/" <= k[..e])
  {
    if FindSub(k, path, 0) == 0 {
      NotThePathItself(k, path, e);
    } else {
      NotFoundFirst(k, path, e);
    }
  }

  lemma NotFoundFirst(k: string, path: string, e: nat)
    requires 0 < FindSub(k, path, 0) <= |k|
    requires FindSub(k, path, 0) + |path| <= e <= |k|
    ensures k[..e] != path && !(path + "/" <= k[..e])
  {
    hide FindSub, OccursAt;
    FirstOccurrenceInPrefix(k, path, e);
    PrefixIsFoundFirst(k[..e], path);
  }

  lemma PrefixIsFoundFirst(s: string, path: string)
    ensures s == path || path + "/" <= s ==> FindSub(s, path, 0) == 0
  {
    if s == path {
      assert s[..|path|] == path;
    }
    if path + "/" <= s {
      assert s[..|path|] == (path + "/")[..|path|];
      assert OccursAt(s, path, 0);
    }
  }

  lemma NotThePathItself(k: string, path: string, e: nat)
    requires path != "" && OccursAt(k, path, 0) && e == Find(k, '/', |path|)
    requires !AtOrBelow(k, path)
    ensures k[..e] != path && !(path + "/" <= k[..e])
  {
    assert k[..|path|] == path;
    assert k == path + k[|path|..];
    if |path| < |k| {
      assert k[..|path| + 1] == path + [k[|path|]];
    }
    if |path| < e {
      assert k[|path|..e][0] == k[|path|];
    }
  }

  lemma TailHasNoSlash(s: string, end: nat)
    requires end <= |s| && '/' !in s[end..]
    ensures Find(s, '/', end + 1) == |s|
  {
  }

  lemma OccursInPrefix(k: string, path: string, e: nat, i: nat)
    requires i + |path| <= e <= |k|
    ensures OccursAt(k[..e], path, i) <==> OccursAt(k, path, i)
  {
  }

  lemma {:induction false} FindSubIs(s: string, p: string, from: nat, i: nat)
    requires from <= i && OccursAt(s, p, i)
    requires forall k: nat :: from <= k < i ==> !OccursAt(s, p, k)
    ensures FindSub(s, p, from) == i
  {
  }

  /** The first occurrence stays the first when a string is cut anywhere after it. */
  lemma FirstOccurrenceInPrefix(k: string, path: string, e: nat)
    requires FindSub(k, path, 0) <= |k|
    requires FindSub(k, path, 0) + |path| <= e <= |k|
    ensures FindSub(k[..e], path, 0) == FindSub(k, path, 0)
  {
    var pos := FindSub(k, path, 0);
    OccursInPrefix(k, path, e, pos);
    forall i: nat | i < pos
      ensures !OccursAt(k[..e], path, i)
    {
      OccursInPrefix(k, path, e, i);
    }
    FindSubIs(k[..e], path, 0, pos);
  }

  /** With the siblings "a" and "ab", listing "/a" wrongly shows "/ab". */
  lemma SiblingIsListed()
    ensures Listed("/ab", "/a") && !IsChildPath("/ab", "/a")
  {
  }

  /**
   The children listed are the folder's own: each child title gives one, bound to that child, and nothing else does.
   */
  lemma DirectChildrenAreTheFolders(d: Drive, m: map<string, string>, path: string, title: string)
    requires Indexes(m, d)
    requires path in m && path != "/" && CleanName(title)
    ensures var key := path + "/" + title; var c := Child(d, m[path], title);
            (key in DirectChildren(m, path) <==> c.Some?) && (c.Some? ==> m[key] == c.value)
  {
    var names := Components(path, 0);
    var all := names + [title];
    var key := path + "/" + title;
    PathOfAppend("/", names, title);
    ComponentsAreClean(path, 0);
    assert CleanNames(all);
    ComponentsOfRootPath(all);
    assert key[|path + "/"|..] == title;
    assert Resolve(d, "root", names) == Some(m[path]);
    ResolveAppend(d, "root", names, title);
    assert Lookup(d, key) == Child(d, m[path], title);
  }

  lemma {:induction false} ResolveAppend(d: Drive, id: string, names: seq<string>, title: string)
    requires Resolve(d, id, names).Some?
    ensures Resolve(d, id, names + [title]) == Child(d, Resolve(d, id, names).value, title)
    decreases |names|
  {
    var all := names + [title];
    if names == [] {
      assert all[0] == title && all[1..] == [];
    } else {
      assert all[0] == names[0] && all[1..] == names[1..] + [title];
      ResolveAppend(d, Child(d, id, names[0]).value, names[1..], title);
    }
  }

  // ---------------------------------------------------------------------------------------------
  // The classes
  // ---------------------------------------------------------------------------------------------

  /** The map after is the map before with the bindings of `added` put over it. */
  ghost predicate Adds(before: map<string, string>, after: map<string, string>, added: map<string, string>) {
    after == before + added
  }

  lemma AddsNothing(m: map<string, string>, d: Drive, id: string, prefix: string, rank: string -> nat)
    requires Acyclic(d, rank)
    ensures Adds(m, m, Collected(d, id, prefix, rank, 0))
  {
  }

  lemma ChildRanksLower(d: Drive, id: string, rank: string -> nat, j: nat)
    requires Acyclic(d, rank)
    requires j < |Listall(d, id)|
    ensures rank(Listall(d, id)[j]) < rank(id)
  {
  }

  /** Binding one more child and what lies below it adds the next collected bindings. */
  lemma AddsOneMore(start: map<string, string>, before: map<string, string>, after: map<string, string>,
                    d: Drive, id: string, prefix: string, rank: string -> nat, j: nat)
    requires Acyclic(d, rank)
    requires j < |Listall(d, id)|
    requires Adds(start, before, Collected(d, id, prefix, rank, j))
    requires var k := Listall(d, id)[j]; var path := prefix + Title(d, k);
             Adds(before[path := k], after, Collected(d, k, path + "/", rank, |Listall(d, k)|))
    ensures Adds(start, after, Collected(d, id, prefix, rank, j + 1))
  {
    hide Collected, Acyclic;
    var k := Listall(d, id)[j];
    var path := prefix + Title(d, k);
    CollectedUnfolds(d, id, prefix, rank, j);
    MergeInOrder(start, Collected(d, id, prefix, rank, j), path, k,
                 Collected(d, k, path + "/", rank, |Listall(d, k)|));
  }

  lemma CollectedUnfolds(d: Drive, id: string, prefix: string, rank: string -> nat, j: nat)
    requires Acyclic(d, rank)
    requires j < |Listall(d, id)|
    ensures var k := Listall(d, id)[j]; var path := prefix + Title(d, k);
            Collected(d, id, prefix, rank, j + 1)
            == Collected(d, id, prefix, rank, j)[path := k] + Collected(d, k, path + "/", rank, |Listall(d, k)|)
  {
  }

  lemma MergeInOrder<K, V>(m: map<K, V>, a: map<K, V>, k: K, v: V, b: map<K, V>)
    ensures (m + a)[k := v] + b == m + (a[k := v] + b)
  {
  }

  class GDriveOperation {
    var mFileIds: map<string, string>

    constructor ()
      ensures mFileIds == map[]
    {
      mFileIds := map[];
    }

    /** The recursion ends because the folder graph has no cycle; with names for titles the result is the index. */
    method LoadFileIds(service: Drive, ghost rank: string -> nat)
      requires Acyclic(service, rank)
      modifies this
      ensures mFileIds == map["/" := "root"] + Collected(service, "root", "/", rank, |Listall(service, "root")|)
      ensures TitlesAreNames(service) ==> IndexesLast(mFileIds, service)
      ensures TitlesClean(service) ==> Indexes(mFileIds, service)
    {
      mFileIds := map[];
      mFileIds := mFileIds["/" := "root"];
      GetChildren("root", service, "/", rank);
      assert mFileIds == map["/" := "root"] + Collected(service, "root", "/", rank, |Listall(service, "root")|);
      if TitlesAreNames(service) {
        CollectedIndexes(service, rank);
      }
    }

    method GetChildren(fileId: string, service: Drive, parentPath: string, ghost rank: string -> nat)
      requires Acyclic(service, rank)
      modifies this
      ensures Adds(old(mFileIds), mFileIds, Collected(service, fileId, parentPath, rank, |Listall(service, fileId)|))
      decreases rank(fileId)
    {
      hide Collected, Adds, Acyclic;
      var childs := Listall(service, fileId);
      AddsNothing(mFileIds, service, fileId, parentPath, rank);
      for j := 0 to |childs|
        invariant Adds(old(mFileIds), mFileIds, Collected(service, fileId, parentPath, rank, j))
      {
        ghost var before := mFileIds;
        var file := childs[j];
        ChildRanksLower(service, fileId, rank, j);
        var path := parentPath + Title(service, file);
        mFileIds := mFileIds[path := file];
        GetChildren(file, service, path + "/", rank);
        AddsOneMore(old(mFileIds), before, mFileIds, service, fileId, parentPath, rank, j);
      }
    }

    method GetFileId(path: string) returns (id: string)
      ensures id == IndexLookup(mFileIds, path)
    {
      if path in mFileIds {
        return mFileIds[path];
      }
      return "";
    }

    method GetFileMap(path: string) returns (temp: map<string, string>)
      ensures temp == FileMap(mFileIds, path)
      ensures path == "" ==> temp == mFileIds
    {
      hide FindSub, Find;
      if path == "" {
        return mFileIds;
      }
      temp := map[];
      var todo := mFileIds.Keys;
      while todo != {}
        invariant todo <= mFileIds.Keys
        invariant temp == map k | k in mFileIds && k !in todo && Listed(k, path) :: mFileIds[k]
        decreases |todo|
      {
        var key :| key in todo;
        todo := todo - {key};
        if key != path {
          var pos := FindSub(key, path, 0);
          if pos <= |key| && Find(key, '/', pos + |path| + 1) == |key| {
            temp := temp[key := mFileIds[key]];
          }
        }
      }
    }
  }

  lemma ChildIs(d: Drive, id: string, title: string, j: nat)
    requires j < |Listall(d, id)| && Title(d, Listall(d, id)[j]) == title
    requires forall k :: 0 <= k < j ==> Title(d, Listall(d, id)[k]) != title
    ensures Child(d, id, title) == Some(Listall(d, id)[j])
  {
  }

  lemma NoChild(d: Drive, id: string, title: string)
    requires forall k :: 0 <= k < |Listall(d, id)| ==> Title(d, Listall(d, id)[k]) != title
    ensures Child(d, id, title) == None
  {
  }

  /** One level of the walk down `names` from level i on. */
  lemma OneLevel(d: Drive, id: string, names: seq<string>, i: nat)
    requires i < |names|
    ensures SkipWalk(d, id, names[i..])
            == match Child(d, id, names[i])
               case Some(k) => if i == |names| - 1 then k else SkipWalk(d, k, names[i + 1..])
               case None => SkipWalk(d, id, names[i + 1..])
  {
  }

  /** `getFileID`: the nested loops over path levels and over each level's children. */
  method GetFileID(service: Drive, filesVec: seq<string>) returns (r: string)
    requires filesVec != []
    ensures r == SkipWalk(service, filesVec[0], filesVec[1..])
  {
    hide SkipWalk, Child, Title, Listall;
    var fileID := filesVec[0];
    var i := 0;
    while i < |filesVec| - 1
      invariant 0 <= i <= |filesVec| - 1
      invariant SkipWalk(service, filesVec[0], filesVec[1..]) == SkipWalk(service, fileID, filesVec[i + 1..])
    {
      var children := Listall(service, fileID);
      OneLevel(service, fileID, filesVec, i + 1);
      ghost var here := fileID;
      var j := 0;
      while j < |children|
        invariant 0 <= j <= |children| && fileID == here
        invariant forall k :: 0 <= k < j ==> Title(service, children[k]) != filesVec[i + 1]
      {
        if Title(service, children[j]) == filesVec[i + 1] {
          ChildIs(service, here, filesVec[i + 1], j);
          fileID := children[j];
          if i == |filesVec| - 2 {
            return fileID;
          }
          break;
        }
        j := j + 1;
      }
      if j == |children| {
        NoChild(service, here, filesVec[i + 1]);
      }
      i := i + 1;
    }
    NoLevels(service, fileID, filesVec);
    return "";
  }

  lemma NoLevels(d: Drive, id: string, names: seq<string>)
    ensures SkipWalk(d, id, names[|names|..]) == ""
  {
  }

  /** The property the two lookups exist for: on a freshly loaded index they give the same file. */
  method FastAndSlowAgree(service: Drive, ghost rank: string -> nat, path: string)
    returns (fast: string, slow: string)
    requires Acyclic(service, rank) && TitlesClean(service)
    ensures path != "/" && Lookup(service, path).Some? ==> fast == slow == Lookup(service, path).value
  {
    var index := new GDriveOperation();
    index.LoadFileIds(service, rank);
    fast := index.GetFileId(path);
    var filesVec := GetFilesFromPath([], path);
    slow := GetFileID(service, filesVec);
    assert filesVec[0] == "root" && filesVec[1..] == Components(path, 0);
    if path in index.mFileIds && path != "/" {
      IndexAgreesWithWalk(service, index.mFileIds, path);
    }
  }
}
