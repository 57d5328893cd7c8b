/**
 The growable character buffer and the split and join helpers. C strings end at their first NUL,
 so appending a `std::string` appends only what comes before one.
 */
module VarString {
  import opened Strings

  const BUFSIZE := 1024

  const NUL: char := '\0'

  /** What `c_str()` lets a reader see: everything before the first NUL. */
  function CStr(s: string): string {
    s[..Find(s, NUL, 0)]
  }

  predicate NulFree(s: string) {
    NUL !in s
  }

  lemma CStrOfNulFree(s: string)
    ensures NulFree(CStr(s))
    ensures NulFree(s) <==> CStr(s) == s
  {
  }

  /** The capacity after n characters were appended to `size` ones held at capacity `cap`. */
  function Grown(cap: nat, size: nat, n: nat): nat {
    if size + n <= cap - 1 then cap
    else if size + n < cap * 2 - 1 then cap * 2
    else size + n + BUFSIZE
  }

  /**
   The new capacity holds what it has to; a reallocation at least doubles, and leaves no more room than
   doubling or 1024 would.
   */
  lemma GrownFits(cap: nat, size: nat, n: nat)
    requires size < cap
    ensures var g := Grown(cap, size, n);
            && size + n < g
            && (g != cap ==> 2 * cap <= g && g <= 2 * (size + n) + BUFSIZE)
  {
  }

  /** The buffer. Its contents are the first `cur` characters of `p`; one place always stays free. */
  class Buffer {
    var p: array<char>
    var cur: nat

    ghost predicate Valid()
      reads this
    {
      cur < p.Length && BUFSIZE <= p.Length
    }

    ghost function Contents(): string
      reads this, p
      requires Valid()
    {
      p[..cur]
    }

    constructor ()
      ensures Valid() && fresh(p)
      ensures Contents() == "" && p.Length == BUFSIZE
    {
      p := new char[BUFSIZE];
      cur := 0;
    }

    /** `realloc` to a larger block: the old contents come along. */
    method Realloc(capacity: nat)
      requires p.Length <= capacity && cur <= p.Length
      modifies this`p
      ensures fresh(p) && p.Length == capacity
      ensures p[..cur] == old(p[..cur])
    {
      var q := new char[capacity];
      forall i | 0 <= i < p.Length {
        q[i] := p[i];
      }
      p := q;
    }

    /** Append one character, doubling a full buffer. */
    method AppendChar(c: char)
      requires Valid()
      modifies this, p
      ensures Valid() && (p == old(p) || fresh(p))
      ensures Contents() == old(Contents()) + [c]
      ensures p.Length == Grown(old(p.Length), old(cur), 1)
                       == (if old(cur) == old(p.Length) - 1 then 2 else 1) * old(p.Length)
    {
      if cur == p.Length - 1 {
        Realloc(p.Length * 2);
      }
      p[cur] := c;
      cur := cur + 1;
    }

    /** Append n characters, growing by doubling where that is enough and by what is needed where it is not. */
    method AppendBytes(s: string)
      requires Valid()
      modifies this, p
      ensures Valid() && (p == old(p) || fresh(p))
      ensures Contents() == old(Contents()) + s
      ensures p.Length == Grown(old(p.Length), old(cur), |s|)
      ensures p.Length in {old(p.Length), 2 * old(p.Length), old(cur) + |s| + BUFSIZE}
      ensures p.Length == old(p.Length) <==> old(cur) + |s| < old(p.Length)
      ensures p.Length == 2 * old(p.Length) <== old(p.Length) <= old(cur) + |s| < 2 * old(p.Length) - 1
    {
      var n := |s|;
      if cur + n > p.Length - 1 {
        var curSize := cur;
        var newLength;
        if cur + n < p.Length * 2 - 1 {
          newLength := p.Length * 2;
        } else {
          newLength := curSize + n + BUFSIZE;
        }
        Realloc(newLength);
      }
      ghost var before := p[..cur];
      forall i | 0 <= i < n {
        p[cur + i] := s[i];
      }
      assert p[..cur] == before;
      assert p[cur..cur + n] == s;
      assert p[..cur + n] == p[..cur] + p[cur..cur + n];
      cur := cur + n;
    }

    method Append(s: string)
      requires Valid()
      modifies this, p
      ensures Valid() && (p == old(p) || fresh(p))
      ensures Contents() == old(Contents()) + CStr(s)
      ensures p.Length == Grown(old(p.Length), old(cur), |CStr(s)|)
    {
      AppendBytes(CStr(s));
    }

    /** Drop the last character, if there is one. */
    method DropOne()
      requires Valid()
      modifies this`cur
      ensures Valid()
      ensures var was := old(Contents()); Contents() == if was == "" then "" else was[..|was| - 1]
    {
      if cur != 0 {
        cur := cur - 1;
      }
    }

    method Drop(len: nat)
      requires Valid()
      requires len <= |Contents()|
      modifies this`cur
      ensures Valid()
      ensures Contents() == old(Contents())[..|old(Contents())| - len]
      ensures p == old(p)
    {
      cur := cur - len;
    }

    method ToString() returns (s: string)
      requires Valid()
      ensures s == Contents()
    {
      s := p[..cur];
    }

    method Clear()
      requires Valid()
      modifies this`cur
      ensures Valid() && Contents() == ""
    {
      cur := 0;
    }
  }

  // ---------------------------------------------------------------------------------------------
  // Any run of operations
  // ---------------------------------------------------------------------------------------------

  datatype Op = OpChar(c: char) | OpBytes(s: string) | OpDrop(len: nat) | OpClear

  /** What one operation does to a plain character sequence; a drop beyond the contents is outside the model. */
  function ApplyOp(s: string, op: Op): string {
    match op
    case OpChar(c) => s + [c]
    case OpBytes(t) => s + t
    case OpDrop(len) => if len <= |s| then s[..|s| - len] else s
    case OpClear => ""
  }

  function Apply(s: string, ops: seq<Op>): string
    decreases |ops|
  {
    if ops == [] then s else Apply(ApplyOp(s, ops[0]), ops[1..])
  }

  /** The largest size held while the operations run, if it was m before. */
  function Largest(s: string, ops: seq<Op>, m: nat): nat
    decreases |ops|
  {
    if ops == [] then m
    else
      var t := ApplyOp(s, ops[0]);
      Largest(t, ops[1..], if |t| > m then |t| else m)
  }

  predicate DropsInRange(s: string, ops: seq<Op>)
    decreases |ops|
  {
    ops == [] ||
    ((ops[0].OpDrop? ==> ops[0].len <= |s|) && DropsInRange(ApplyOp(s, ops[0]), ops[1..]))
  }

  function NextCapacity(cap: nat, size: nat, op: Op): nat {
    match op
    case OpChar(_) => Grown(cap, size, 1)
    case OpBytes(t) => Grown(cap, size, |t|)
    case OpDrop(_) => cap
    case OpClear => cap
  }

  /** The capacities held one after another while the operations run on contents s, from the present one to the last. */
  function Capacities(s: string, cap: nat, ops: seq<Op>): (caps: seq<nat>)
    ensures caps != [] && caps[0] == cap
    decreases |ops|
  {
    if ops == [] then [cap]
    else
      var next := NextCapacity(cap, |s|, ops[0]);
      var rest := Capacities(ApplyOp(s, ops[0]), next, ops[1..]);
      if next == cap then rest else [cap] + rest
  }

  function Sum(ns: seq<nat>): nat {
    if ns == [] then 0 else ns[0] + Sum(ns[1..])
  }

  lemma OneOpGrows(s: string, cap: nat, op: Op, m: nat)
    requires |s| < cap <= 2 * m + BUFSIZE && |s| <= m
    requires op.OpDrop? ==> op.len <= |s|
    ensures var t, next := ApplyOp(s, op), NextCapacity(cap, |s|, op);
            var n := if |t| > m then |t| else m;
            && |t| < next <= 2 * n + BUFSIZE
            && (next != cap ==> 2 * cap <= next)
  {
    match op
    case OpChar(c) => GrownFits(cap, |s|, 1);
    case OpBytes(t) => GrownFits(cap, |s|, |t|);
    case OpDrop(len) =>
    case OpClear =>
  }

  /**
   Each capacity is at least twice the one before, and all but the last fit, with r, into the last,
   which is bounded.
   */
  predicate Fit(caps: seq<nat>, r: nat, bound: nat)
    requires caps != []
  {
    var last := |caps| - 1;
    && r + Sum(caps[..last]) <= caps[last] <= bound
    && forall i :: 0 <= i < last ==> 2 * caps[i] <= caps[i + 1]
  }

  lemma FitCons(cap: nat, rest: seq<nat>, r: nat, bound: nat)
    requires rest != [] && Fit(rest, r + cap, bound) && 2 * cap <= rest[0]
    ensures Fit([cap] + rest, r, bound)
  {
    var caps := [cap] + rest;
    var init := caps[..|rest|];
    assert init[1..] == rest[..|rest| - 1];
    forall i | 0 <= i < |rest|
      ensures 2 * caps[i] <= caps[i + 1]
    {
      assert i == 0 || caps[i] == rest[i - 1];
    }
  }

  /** Where r bounds what was given up before, r and what is still given up fit into the last capacity. */
  lemma {:induction false} CapacitiesFit(s: string, cap: nat, ops: seq<Op>, r: nat, m: nat)
    requires DropsInRange(s, ops)
    requires |s| < cap <= 2 * m + BUFSIZE && |s| <= m && r <= cap
    ensures Fit(Capacities(s, cap, ops), r, 2 * Largest(s, ops, m) + BUFSIZE)
    decreases |ops|
  {
    hide Fit, Grown, NextCapacity, ApplyOp;
    if ops == [] {
      FitOne(cap, r, 2 * m + BUFSIZE);
    } else {
      var t, next := ApplyOp(s, ops[0]), NextCapacity(cap, |s|, ops[0]);
      var n := if |t| > m then |t| else m;
      OneOpGrows(s, cap, ops[0], m);
      if next == cap {
        CapacitiesFit(t, next, ops[1..], r, n);
      } else {
        CapacitiesFit(t, next, ops[1..], r + cap, n);
        FitCons(cap, Capacities(t, next, ops[1..]), r, 2 * Largest(s, ops, m) + BUFSIZE);
      }
    }
  }

  lemma FitOne(cap: nat, r: nat, bound: nat)
    requires r <= cap <= bound
    ensures Fit([cap], r, bound)
  {
  }

  /**
   From a new buffer on, whatever the operations: every reallocation at least doubles the capacity;
   all capacities given up, and 1024, fit into the last one, which is at most twice the largest size
   ever held and 1024.
   */
  lemma CapacitiesAreBounded(ops: seq<Op>)
    requires DropsInRange("", ops)
    ensures var caps := Capacities("", BUFSIZE, ops); var last := |caps| - 1;
            && caps[0] == BUFSIZE
            && (forall i :: 0 <= i < last ==> 2 * caps[i] <= caps[i + 1])
            && Sum(caps[..last]) + BUFSIZE <= caps[last] <= 2 * Largest("", ops, 0) + BUFSIZE
  {
    CapacitiesFit("", BUFSIZE, ops, BUFSIZE, 0);
    hide Capacities, Largest, Sum, DropsInRange;
  }

  lemma OneOp(s: string, ops: seq<Op>, i: nat, cap: nat)
    requires i < |ops|
    ensures var t, next := ApplyOp(s, ops[i]), NextCapacity(cap, |s|, ops[i]);
            && Apply(s, ops[i..]) == Apply(t, ops[i + 1..])
            && Capacities(s, cap, ops[i..])
               == (if next == cap then [] else [cap]) + Capacities(t, next, ops[i + 1..])
            && (DropsInRange(s, ops[i..]) ==>
                  (ops[i].OpDrop? ==> ops[i].len <= |s|) && DropsInRange(t, ops[i + 1..]))
  {
    assert ops[i..][1..] == ops[i + 1..];
  }

  lemma NoOps(s: string, cap: nat)
    ensures Apply(s, []) == s && Capacities(s, cap, []) == [cap]
  {
  }

  method Perform(b: Buffer, op: Op)
    requires b.Valid() && (op.OpDrop? ==> op.len <= |b.Contents()|)
    modifies b, b.p
    ensures b.Valid() && (b.p == old(b.p) || fresh(b.p))
    ensures b.Contents() == ApplyOp(old(b.Contents()), op)
    ensures b.p.Length == NextCapacity(old(b.p.Length), |old(b.Contents())|, op) >= old(b.p.Length)
  {
    match op {
      case OpChar(c) => b.AppendChar(c);
      case OpBytes(s) => b.AppendBytes(s);
      case OpDrop(len) => b.Drop(len);
      case OpClear => b.Clear();
    }
  }

  /**
   Any run of operations leaves the buffer holding what it leaves a plain string holding, with one
   place to spare. `caps` lists the capacities the buffer has had, noted down whenever one changed.
   */
  method RunOps(ops: seq<Op>) returns (b: Buffer, caps: seq<nat>)
    requires DropsInRange("", ops)
    ensures b.Valid() && b.Contents() == Apply("", ops)
    ensures |b.Contents()| <= b.p.Length - 1
    ensures caps == Capacities("", BUFSIZE, ops) && b.p.Length == caps[|caps| - 1]
    ensures Sum(caps[..|caps| - 1]) + BUFSIZE <= b.p.Length <= 2 * Largest("", ops, 0) + BUFSIZE
  {
    hide Apply, ApplyOp, Largest, DropsInRange, Capacities, NextCapacity, Sum;
    b := new Buffer();
    caps := [b.p.Length];
    assert ops[0..] == ops && [] + Capacities("", BUFSIZE, ops) == Capacities("", BUFSIZE, ops);
    for i := 0 to |ops|
      invariant b.Valid() && fresh(b) && fresh(b.p)
      invariant caps != [] && caps[|caps| - 1] == b.p.Length >= BUFSIZE
      invariant DropsInRange(b.Contents(), ops[i..])
      invariant Apply(b.Contents(), ops[i..]) == Apply("", ops)
      invariant caps[..|caps| - 1] + Capacities(b.Contents(), b.p.Length, ops[i..]) == Capacities("", BUFSIZE, ops)
    {
      OneOp(b.Contents(), ops, i, b.p.Length);
      ghost var before := caps;
      Perform(b, ops[i]);
      if b.p.Length != caps[|caps| - 1] {
        NoteDown(caps, Capacities(b.Contents(), b.p.Length, ops[i + 1..]));
        caps := caps + [b.p.Length];
      }
    }
    NoOps(b.Contents(), b.p.Length);
    assert ops[|ops|..] == [];
    assert caps[..|caps| - 1] + [b.p.Length] == caps;
    CapacitiesAreBounded(ops);
  }

  lemma NoteDown(caps: seq<nat>, rest: seq<nat>)
    requires caps != []
    ensures forall x :: (caps + [x])[..|caps|] == caps
    ensures caps[..|caps| - 1] + ([caps[|caps| - 1]] + rest) == caps + rest
  {
  }

  // ---------------------------------------------------------------------------------------------
  // split and join
  // ---------------------------------------------------------------------------------------------

  function Split(s: string, delim: string): (parts: seq<string>)
    requires delim != ""
    ensures parts != []
    decreases |s|
  {
    var i := FindSub(s, delim, 0);
    if i <= |s| then [s[..i]] + Split(s[i + |delim|..], delim) else [s]
  }

  function Join(parts: seq<string>, delim: string): string
    requires parts != []
    decreases |parts|
  {
    if |parts| == 1 then parts[0] else parts[0] + delim + Join(parts[1..], delim)
  }

  lemma SplitOnce(s: string, delim: string)
    requires delim != ""
    ensures var i := FindSub(s, delim, 0);
            (i <= |s| ==> OccursAt(s, delim, i)) &&
            Split(s, delim) == if i <= |s| then [s[..i]] + Split(s[i + |delim|..], delim) else [s]
  {
  }

  lemma JoinCons(part: string, tail: seq<string>, delim: string)
    requires tail != []
    ensures Join([part] + tail, delim) == part + delim + Join(tail, delim)
  {
  }

  lemma AroundOccurrence(s: string, p: string, i: nat)
    requires OccursAt(s, p, i)
    ensures s == s[..i] + p + s[i + |p|..]
  {
  }

  /** Joining what a split gave restores the string. */
  lemma {:induction false} JoinSplit(s: string, delim: string)
    requires delim != ""
    ensures Join(Split(s, delim), delim) == s
    decreases |s|
  {
    hide FindSub, Split;
    SplitOnce(s, delim);
    var i := FindSub(s, delim, 0);
    if i <= |s| {
      AroundOccurrence(s, delim, i);
      JoinSplit(s[i + |delim|..], delim);
      JoinCons(s[..i], Split(s[i + |delim|..], delim), delim);
    }
  }

  /** Each part is followed by the delimiter no sooner than it ends, and the last does not contain it. */
  predicate CutsCleanly(parts: seq<string>, delim: string)
    requires parts != [] && delim != ""
    decreases |parts|
  {
    if |parts| == 1 then FindSub(parts[0], delim, 0) > |parts[0]|
    else FindSub(parts[0] + delim, delim, 0) == |parts[0]| && CutsCleanly(parts[1..], delim)
  }

  lemma FirstCut(part: string, delim: string, rest: string)
    requires delim != ""
    ensures FindSub(part + delim + rest, delim, 0) == FindSub(part + delim, delim, 0) <= |part|
  {
    var a, s := part + delim, part + delim + rest;
    assert OccursAt(a, delim, |part|);
    var i := FindSub(a, delim, 0);
    forall k: nat | k <= |part|
      ensures OccursAt(s, delim, k) <==> OccursAt(a, delim, k)
    {
      assert s[k..k + |delim|] == a[k..k + |delim|];
    }
    assert OccursAt(s, delim, i);
    assert forall k: nat :: k < i ==> !OccursAt(s, delim, k);
    var j := FindSub(s, delim, 0);
  }

  /** Splitting what a join gave restores the parts exactly when they cut cleanly. */
  lemma {:induction false} SplitJoinExactly(parts: seq<string>, delim: string)
    requires parts != [] && delim != ""
    ensures Split(Join(parts, delim), delim) == parts <==> CutsCleanly(parts, delim)
    decreases |parts|
  {
    if |parts| == 1 {
      var s := parts[0];
      var i := FindSub(s, delim, 0);
      if i <= |s| {
        assert |Split(s, delim)[0]| < |s|;
      }
    } else {
      var rest := Join(parts[1..], delim);
      var s := parts[0] + delim + rest;
      FirstCut(parts[0], delim, rest);
      var i := FindSub(s, delim, 0);
      assert Split(s, delim)[0] == s[..i];
      if i == |parts[0]| {
        assert s[..i] == parts[0] && s[i + |delim|..] == rest;
        SplitJoinExactly(parts[1..], delim);
        assert Split(s, delim)[1..] == Split(rest, delim);
        assert parts == [parts[0]] + parts[1..];
      }
    }
  }

  lemma {:induction false} FindSubShift(s: string, p: string, pos: nat, from: nat)
    requires pos <= from <= |s|
    ensures FindSub(s, p, from) == pos + FindSub(s[pos..], p, from - pos)
    decreases |s| - from
  {
    assert OccursAt(s, p, from) == OccursAt(s[pos..], p, from - pos) by {
      if from + |p| <= |s| {
        assert s[pos..][from - pos..from - pos + |p|] == s[from..from + |p|];
      }
    }
    if from < |s| {
      FindSubShift(s, p, pos, from + 1);
    }
  }

  lemma SlicesOfTail<T>(s: seq<T>, pos: nat, i: nat)
    requires pos + i <= |s|
    ensures s[pos..][..i] == s[pos..pos + i]
    ensures s[pos..][i..] == s[pos + i..]
  {
  }

  lemma SplitFrom(s: string, delim: string, pos: nat)
    requires delim != "" && pos <= |s|
    ensures var next := FindSub(s, delim, pos);
            (next <= |s| ==> pos <= next && next + |delim| <= |s|) &&
            Split(s[pos..], delim)
            == if next <= |s| then [s[pos..next]] + Split(s[next + |delim|..], delim) else [s[pos..]]
  {
    hide FindSub, Split;
    var t := s[pos..];
    FindSubShift(s, delim, pos, pos);
    var i := FindSub(t, delim, 0);
    SplitOnce(t, delim);
    if i <= |t| {
      SlicesOfTail(s, pos, i);
      SlicesOfTail(s, pos, i + |delim|);
    }
  }

  /** `split`: the loop over positions. With an empty delimiter the source does not terminate. */
  method SplitString(str: string, delim: string) returns (rst: seq<string>)
    requires delim != ""
    ensures rst == Split(str, delim)
  {
    hide Split, FindSub;
    rst := [];
    var pos := 0;
    assert str[0..] == str;
    assert [] + Split(str, delim) == Split(str, delim);
    while true
      invariant pos <= |str|
      invariant rst + Split(str[pos..], delim) == Split(str, delim)
      decreases |str| - pos
    {
      SplitFrom(str, delim, pos);
      var next := FindSub(str, delim, pos);
      if next <= |str| {
        rst := rst + [str[pos..next]];
        pos := next + |delim|;
      } else {
        rst := rst + [str[pos..]];
        break;
      }
    }
  }

  function Seen(parts: seq<string>): (r: seq<string>)
    ensures |r| == |parts|
  {
    seq(|parts|, i requires 0 <= i < |parts| => CStr(parts[i]))
  }

  /** Every part followed by the delimiter. */
  function Terminated(parts: seq<string>, delim: string): string {
    if parts == [] then "" else Terminated(parts[..|parts| - 1], delim) + parts[|parts| - 1] + delim
  }

  lemma {:induction false} JoinSnoc(parts: seq<string>, last: string, delim: string)
    requires parts != []
    ensures Join(parts + [last], delim) == Join(parts, delim) + delim + last
    decreases |parts|
  {
    var all := parts + [last];
    if |parts| == 1 {
      assert all[1..] == [last];
    } else {
      assert all[1..] == parts[1..] + [last];
      JoinSnoc(parts[1..], last, delim);
    }
  }

  lemma {:induction false} TerminatedIsJoin(parts: seq<string>, delim: string)
    requires parts != []
    ensures Terminated(parts, delim) == Join(parts, delim) + delim
    decreases |parts|
  {
    var init, last := parts[..|parts| - 1], parts[|parts| - 1];
    if init == [] {
      assert Terminated(init, delim) == "";
    } else {
      TerminatedIsJoin(init, delim);
      JoinSnoc(init, last, delim);
      assert init + [last] == parts;
    }
  }

  /**
   `join` over the strings of a set in iteration order. What is dropped at the end is the whole
   separator, what was appended is only what its C string shows: the result is the join exactly when
   the separator holds no NUL. A separator longer than everything appended is outside the model.
   */
  method JoinStrings(vec: seq<string>, sep: string) returns (r: string)
    requires vec == [] || |sep| <= |Terminated(Seen(vec), CStr(sep))|
    ensures vec == [] ==> r == ""
    ensures vec != [] ==> r == Terminated(Seen(vec), CStr(sep))[..|Terminated(Seen(vec), CStr(sep))| - |sep|]
    ensures vec != [] ==> (r == Join(Seen(vec), CStr(sep)) <==> NulFree(sep))
  {
    hide CStr, Seen, Terminated, Join, NulFree;
    if |vec| == 0 {
      return "";
    }
    var vs := new Buffer();
    var len := |sep|;
    NothingTerminated(vec, CStr(sep));
    for i := 0 to |vec|
      invariant vs.Valid() && fresh(vs) && fresh(vs.p)
      invariant vs.Contents() == Terminated(Seen(vec[..i]), CStr(sep))
    {
      OneMoreTerminated(vec, i, CStr(sep));
      vs.Append(vec[i]);
      vs.Append(sep);
    }
    assert vec[..|vec|] == vec;
    JoinedExactly(vec, sep);
    vs.Drop(len);
    r := vs.ToString();
  }

  lemma NothingTerminated(vec: seq<string>, sep: string)
    ensures Terminated(Seen(vec[..0]), sep) == ""
  {
  }

  lemma OneMoreTerminated(vec: seq<string>, i: nat, sep: string)
    requires i < |vec|
    ensures Terminated(Seen(vec[..i + 1]), sep) == Terminated(Seen(vec[..i]), sep) + CStr(vec[i]) + sep
  {
    assert Seen(vec[..i + 1])[..i] == Seen(vec[..i]);
  }

  lemma JoinedExactly(vec: seq<string>, sep: string)
    requires vec != [] && |sep| <= |Terminated(Seen(vec), CStr(sep))|
    ensures var all := Terminated(Seen(vec), CStr(sep));
            all[..|all| - |sep|] == Join(Seen(vec), CStr(sep)) <==> NulFree(sep)
  {
    var parts := Seen(vec);
    hide Seen;
    TerminatedIsJoin(parts, CStr(sep));
    CStrOfNulFree(sep);
    var all := Terminated(parts, CStr(sep));
    assert |CStr(sep)| <= |sep|;
    if all[..|all| - |sep|] == Join(parts, CStr(sep)) {
      assert |CStr(sep)| == |sep|;
      assert sep[..|sep|] == sep;
    }
  }
}
