/**
 * Call-target descriptors: the strings 'Class@method', 'Class::method' and
 * 'Class' that name a controller or a middleware step, the PHP string
 * primitives used to take them apart (`strpos`, `explode` and `list`), and
 * the structured target they denote.
 */
module Descriptors {
  import opened Wrappers

  /** Separator of an instance-method descriptor, 'Class@method'. */
  const InstanceSep: string := "@"
  /** Separator of a static-method descriptor, 'Class::method'. */
  const StaticSep: string := "::"

  /** `sep` occurs in `s` starting at position `j`. */
  predicate OccursAt(s: string, sep: string, j: int)
  {
    0 <= j && j + |sep| <= |s| && s[j..j + |sep|] == sep
  }

  /** PHP `strpos($s, $sep, $from)`: the first position at or after `from`
      where `sep` occurs, or None (PHP's `false`). */
  function FindFrom(s: string, sep: string, from: nat): (r: Option<nat>)
    requires |sep| > 0
    ensures r.Some? ==> from <= r.value && OccursAt(s, sep, r.value)
    ensures r.Some? ==> forall j :: from <= j < r.value ==> !OccursAt(s, sep, j)
    ensures r.None? ==> forall j :: from <= j ==> !OccursAt(s, sep, j)
    decreases |s| - from
  {
    if from + |sep| > |s| then None
    else if s[from..from + |sep|] == sep then Some(from)
    else FindFrom(s, sep, from + 1)
  }

  /** PHP `strpos($s, $sep)`. */
  function IndexOf(s: string, sep: string): (r: Option<nat>)
    requires |sep| > 0
    ensures r.Some? ==> OccursAt(s, sep, r.value) && forall j :: 0 <= j < r.value ==> !OccursAt(s, sep, j)
    ensures r.None? ==> forall j :: !OccursAt(s, sep, j)
  {
    FindFrom(s, sep, 0)
  }

  /** PHP `strpos($s, $sep) !== false`. */
  function Contains(s: string, sep: string): (b: bool)
    requires |sep| > 0
    ensures b ==> IndexOf(s, sep).Some? && OccursAt(s, sep, IndexOf(s, sep).value)
    ensures !b ==> forall j :: !OccursAt(s, sep, j)
  {
    IndexOf(s, sep).Some?
  }

  /** PHP `explode($sep, substr($s, $from))`: the pieces between successive
      occurrences of `sep`, left to right, each occurrence found by `FindFrom`
      from the end of the previous one (`ExplodeHead` pins every piece). */
  function ExplodeFrom(s: string, sep: string, from: nat): (parts: seq<string>)
    requires |sep| > 0 && from <= |s|
    ensures |parts| >= 1
    ensures |parts| >= 2 <==> FindFrom(s, sep, from).Some?
    decreases |s| - from
  {
    match FindFrom(s, sep, from)
    case None => [s[from..]]
    case Some(i) => [s[from..i]] + ExplodeFrom(s, sep, i + |sep|)
  }

  /** PHP `explode($sep, $s)`. */
  function Explode(s: string, sep: string): (parts: seq<string>)
    requires |sep| > 0
    ensures |parts| >= 2 <==> Contains(s, sep)
  {
    ExplodeFrom(s, sep, 0)
  }

  /** PHP `implode($sep, $parts)`, the inverse of `Explode`. */
  function Implode(parts: seq<string>, sep: string): string
  {
    if |parts| == 0 then ""
    else if |parts| == 1 then parts[0]
    else parts[0] + sep + Implode(parts[1..], sep)
  }

  /** Joining the pieces again with the separator gives back the string. */
  lemma {:induction false} ExplodeImplode(s: string, sep: string, from: nat)
    requires |sep| > 0 && from <= |s|
    ensures Implode(ExplodeFrom(s, sep, from), sep) == s[from..]
    decreases |s| - from
  {
    match FindFrom(s, sep, from)
    case None =>
    case Some(i) =>
      var rest := ExplodeFrom(s, sep, i + |sep|);
      ExplodeImplode(s, sep, i + |sep|);
      ImplodeCons(s[from..i], rest, sep);
      SliceAround(s, from, i, |sep|);
  }

  /** Joining a piece in front of at least one more. */
  lemma ImplodeCons(head: string, rest: seq<string>, sep: string)
    requires |rest| >= 1
    ensures Implode([head] + rest, sep) == head + sep + Implode(rest, sep)
  {
    assert ([head] + rest)[1..] == rest;
  }

  /** A suffix of `s` cut in three at `i` and `i + k`. */
  lemma SliceAround(s: string, from: nat, i: nat, k: nat)
    requires from <= i && i + k <= |s|
    ensures s[from..] == s[from..i] + s[i..i + k] + s[i + k..]
  {
  }

  /** A slice of `s` in which no occurrence of `sep` starts does not contain it. */
  lemma SliceFree(s: string, sep: string, lo: nat, hi: nat)
    requires |sep| > 0 && lo <= hi <= |s|
    requires forall j :: lo <= j < hi ==> !OccursAt(s, sep, j)
    ensures !Contains(s[lo..hi], sep)
  {
    var t := s[lo..hi];
    forall p | 0 <= p && p + |sep| <= |t|
      ensures !OccursAt(t, sep, p)
    {
      var u, v := t[p..p + |sep|], s[lo + p..lo + p + |sep|];
      forall k | 0 <= k < |sep|
        ensures u[k] == v[k]
      {
        assert t[p + k] == s[lo + p + k];
      }
      assert u == v;
      assert !OccursAt(s, sep, lo + p);
    }
  }

  /** No piece of an explode contains the separator. */
  lemma {:induction false} ExplodePiecesFree(s: string, sep: string, from: nat)
    requires |sep| > 0 && from <= |s|
    ensures forall k :: 0 <= k < |ExplodeFrom(s, sep, from)| ==> !Contains(ExplodeFrom(s, sep, from)[k], sep)
    decreases |s| - from
  {
    match FindFrom(s, sep, from)
    case None =>
      SliceFree(s, sep, from, |s|);
      assert s[from..|s|] == s[from..];
    case Some(i) =>
      SliceFree(s, sep, from, i);
      ExplodePiecesFree(s, sep, i + |sep|);
      var rest := ExplodeFrom(s, sep, i + |sep|);
      assert ExplodeFrom(s, sep, from) == [s[from..i]] + rest;
  }

  /** The first piece of a join is a prefix of the join. */
  lemma ImplodeHeadPrefix(parts: seq<string>, sep: string)
    requires |parts| >= 1
    ensures parts[0] <= Implode(parts, sep)
  {
  }

  /** Where the piece of `s` that starts at `j` ends: at the next occurrence of
      `sep`, or at the end of `s`. */
  function PieceEnd(s: string, sep: string, j: nat): (k: nat)
    requires |sep| > 0 && j <= |s|
    ensures j <= k <= |s|
    ensures forall p :: j <= p < k ==> !OccursAt(s, sep, p)
    ensures k < |s| ==> OccursAt(s, sep, k)
  {
    match FindFrom(s, sep, j)
    case Some(k) => k
    case None => |s|
  }

  /** Every piece of an explode from `j` is pinned: the first runs from `j` to
      `PieceEnd`, and the others are the explode that starts just after the
      separator ending it, or there are none when no separator follows. */
  lemma ExplodeHead(s: string, sep: string, j: nat)
    requires |sep| > 0 && j <= |s|
    ensures ExplodeFrom(s, sep, j)[0] == s[j..PieceEnd(s, sep, j)]
    ensures FindFrom(s, sep, j).None? ==> |ExplodeFrom(s, sep, j)| == 1
    ensures FindFrom(s, sep, j).Some? ==>
      var k := FindFrom(s, sep, j).value + |sep|;
      k <= |s| && ExplodeFrom(s, sep, j)[1..] == ExplodeFrom(s, sep, k)
  {
    match FindFrom(s, sep, j)
    case None =>
      assert s[j..] == s[j..|s|];
    case Some(i) =>
  }

  /** PHP `list($a, $b) = explode($sep, $s)`: the first two pieces, which are
      the text before the first `sep` and the text from there to the second
      `sep` or the end. */
  function Split2(s: string, sep: string): (r: (string, string))
    requires |sep| > 0 && Contains(s, sep)
    ensures var i := IndexOf(s, sep).value;
      i + |sep| <= |s| && r.0 == s[..i] && r.1 == s[i + |sep|..PieceEnd(s, sep, i + |sep|)]
  {
    var i := IndexOf(s, sep).value;
    ExplodeHead(s, sep, 0);
    ExplodeHead(s, sep, i + |sep|);
    var parts := Explode(s, sep);
    (parts[0], parts[1])
  }

  /** The two pieces kept by `list` are what lies before the first separator and
      between the first and the second one: `s` starts with them joined by the
      separator, and neither contains it. */
  lemma SplitShape(s: string, sep: string)
    requires |sep| > 0 && Contains(s, sep)
    ensures var i := IndexOf(s, sep).value;
      var j := i + |sep|;
      j <= |s| && Split2(s, sep) == (s[..i], s[j..PieceEnd(s, sep, j)])
    ensures Split2(s, sep).0 + sep + Split2(s, sep).1 <= s
    ensures !Contains(Split2(s, sep).0, sep) && !Contains(Split2(s, sep).1, sep)
  {
    ExplodePiecesFree(s, sep, 0);
    JoinedHeadsPrefix(s, sep);
  }

  /** The first two pieces of an explode, joined by the separator, begin the string. */
  lemma JoinedHeadsPrefix(s: string, sep: string)
    requires |sep| > 0 && Contains(s, sep)
    ensures Explode(s, sep)[0] + sep + Explode(s, sep)[1] <= s
  {
    var parts := Explode(s, sep);
    ExplodeImplode(s, sep, 0);
    assert s[0..] == s;
    var tail := Implode(parts[1..], sep);
    assert s == parts[0] + sep + tail;
    ImplodeHeadPrefix(parts[1..], sep);
    PrefixUnder(parts[0] + sep, parts[1], tail);
  }

  /** Putting the same text in front of a prefix and its extension keeps it a prefix. */
  lemma PrefixUnder(x: string, a: string, b: string)
    requires a <= b
    ensures x + a <= x + b
  {
    assert b == a + b[|a|..];
    assert x + b == (x + a) + b[|a|..];
  }

  /** The first character of `sep` never appears from `from` on, so `sep` does not occur there. */
  lemma AbsentFirstChar(s: string, sep: string, from: nat)
    requires |sep| > 0
    requires forall j :: from <= j < |s| ==> s[j] != sep[0]
    ensures FindFrom(s, sep, from) == None
  {
    forall j | from <= j && j + |sep| <= |s|
      ensures !OccursAt(s, sep, j)
    {
      assert s[j..j + |sep|][0] == s[j];
    }
  }

  /** Exploding `a + sep + b` gives back `a` and `b` when the separator's first
      character occurs in neither. */
  lemma ExplodeJoin(a: string, sep: string, b: string)
    requires |sep| > 0 && sep[0] !in a && sep[0] !in b
    ensures IndexOf(a + sep + b, sep) == Some(|a|)
    ensures Explode(a + sep + b, sep) == [a, b]
  {
    var s := a + sep + b;
    forall j | 0 <= j < |a| && j + |sep| <= |s|
      ensures !OccursAt(s, sep, j)
    {
      assert s[j] == a[j];
      assert s[j..j + |sep|][0] == s[j];
    }
    assert s[|a|..|a| + |sep|] == sep;
    assert OccursAt(s, sep, |a|);
    forall j | |a| + |sep| <= j < |s|
      ensures s[j] != sep[0]
    {
      assert s[j] == b[j - |a| - |sep|];
    }
    AbsentFirstChar(s, sep, |a| + |sep|);
    assert s[0..|a|] == a;
    assert s[|a| + |sep|..] == b;
    assert ExplodeFrom(s, sep, |a| + |sep|) == [b];
    assert ExplodeFrom(s, sep, 0) == [a] + [b];
  }

  /** A call target: what a descriptor tells the dispatcher to invoke. */
  datatype Target =
    | Instance(cls: string, meth: string)  // construct `cls`, then call instance method `meth`
    | Static(cls: string, meth: string)    // call static method `cls::meth`
    | Construct(cls: string)               // construct `cls`; its constructor does the work

  /** The descriptor that names a target. */
  function Render(t: Target): string
  {
    match t
    case Instance(c, m) => c + InstanceSep + m
    case Static(c, m) => c + StaticSep + m
    case Construct(c) => c
  }

  /** A class or method name: neither separator character appears in it. */
  predicate IsName(s: string)
  {
    '@' !in s && ':' !in s
  }

  /** A target whose rendering can be read back, as PHP class and method names always can. */
  predicate WellFormed(t: Target)
  {
    match t
    case Instance(c, m) => IsName(c) && IsName(m)
    case Static(c, m) => IsName(c) && IsName(m)
    case Construct(c) => IsName(c)
  }

  /** A name contains neither separator. */
  lemma NameHasNoSeparator(s: string)
    requires IsName(s)
    ensures !Contains(s, InstanceSep) && !Contains(s, StaticSep)
  {
    AbsentFirstChar(s, InstanceSep, 0);
    AbsentFirstChar(s, StaticSep, 0);
  }

  /** How `callController` reads its descriptor (Route/Route.php:165-184): an `@`
      makes it an instance call, failing that a `::` makes it a static call,
      failing that it names a class to construct. */
  function Classify(d: string): (t: Target)
    ensures t.Instance? <==> Contains(d, InstanceSep)
    ensures t.Static? <==> !Contains(d, InstanceSep) && Contains(d, StaticSep)
    ensures t.Construct? ==> t == Construct(d)
  {
    if Contains(d, InstanceSep) then
      var p := Split2(d, InstanceSep);
      Instance(p.0, p.1)
    else if Contains(d, StaticSep) then
      var p := Split2(d, StaticSep);
      Static(p.0, p.1)
    else
      Construct(d)
  }

  /** The shape of a classified descriptor: the class and method are the text
      before the first separator and between the first and the second (or the
      end); neither contains the separator; the descriptor starts with the
      target's rendering. */
  lemma ClassifyShape(d: string)
    ensures Contains(d, InstanceSep) ==>
      var i := IndexOf(d, InstanceSep).value;
      var j := i + |InstanceSep|;
      j <= |d| && Classify(d) == Instance(d[..i], d[j..PieceEnd(d, InstanceSep, j)])
    ensures !Contains(d, InstanceSep) && Contains(d, StaticSep) ==>
      var i := IndexOf(d, StaticSep).value;
      var j := i + |StaticSep|;
      j <= |d| && Classify(d) == Static(d[..i], d[j..PieceEnd(d, StaticSep, j)])
    ensures Render(Classify(d)) <= d
    ensures Classify(d).Instance? ==>
      !Contains(Classify(d).cls, InstanceSep) && !Contains(Classify(d).meth, InstanceSep)
    ensures Classify(d).Static? ==>
      !Contains(Classify(d).cls, StaticSep) && !Contains(Classify(d).meth, StaticSep)
  {
    if Contains(d, InstanceSep) {
      SplitShape(d, InstanceSep);
    } else if Contains(d, StaticSep) {
      SplitShape(d, StaticSep);
    }
  }

  /** Reading back a well-formed target's descriptor gives the target. */
  lemma ClassifyRender(t: Target)
    requires WellFormed(t)
    ensures Classify(Render(t)) == t
  {
    match t
    case Instance(c, m) =>
      ExplodeJoin(c, InstanceSep, m);
    case Static(c, m) =>
      var d := c + StaticSep + m;
      forall j | 0 <= j < |d|
        ensures d[j] != InstanceSep[0]
      {
        assert d[j] in c || d[j] in StaticSep || d[j] in m;
      }
      AbsentFirstChar(d, InstanceSep, 0);
      ExplodeJoin(c, StaticSep, m);
    case Construct(c) =>
      NameHasNoSeparator(c);
  }

  /** How `callMiddleware` reads a middleware descriptor `m` (Route/Route.php:193-211).
      The `@` test looks at `m`, but the `::` test and split look at the route's
      controller descriptor, not at `m`. */
  function MiddlewareTarget(m: string, controller: string): (t: Target)
    ensures t.Instance? <==> Contains(m, InstanceSep)
    ensures t.Static? <==> !Contains(m, InstanceSep) && Contains(controller, StaticSep)
    ensures t.Construct? ==> t == Construct(m)
  {
    if Contains(m, InstanceSep) then
      var p := Split2(m, InstanceSep);
      Instance(p.0, p.1)
    else if Contains(controller, StaticSep) then
      var p := Split2(controller, StaticSep);
      Static(p.0, p.1)
    else
      Construct(m)
  }

  /** Middleware agrees with the controller reading on `@` descriptors; without `@`
      its own `::` is ignored, and a `::` in the controller turns every such step
      into a call of the controller's static target. */
  lemma MiddlewareTargetVersusClassify(m: string, controller: string)
    ensures Contains(m, InstanceSep) ==> MiddlewareTarget(m, controller) == Classify(m)
    ensures !Contains(m, InstanceSep) && Contains(controller, StaticSep) && !Contains(controller, InstanceSep) ==>
      MiddlewareTarget(m, controller) == Classify(controller)
    ensures !Contains(m, InstanceSep) && !Contains(controller, StaticSep) ==>
      MiddlewareTarget(m, controller) == Construct(m)
    ensures !Contains(m, InstanceSep) && Contains(controller, StaticSep) ==>
      forall m' :: !Contains(m', InstanceSep) ==> MiddlewareTarget(m', controller) == MiddlewareTarget(m, controller)
    ensures !Contains(m, InstanceSep) && Contains(controller, StaticSep) ==>
      var i := IndexOf(controller, StaticSep).value;
      var j := i + |StaticSep|;
      j <= |controller| &&
      MiddlewareTarget(m, controller) == Static(controller[..i], controller[j..PieceEnd(controller, StaticSep, j)])
  {
  }

  /** A static-call middleware descriptor beside a plain controller is not called
      statically: 'Auth::check' is read as a class named 'Auth::check' to construct,
      where the controller reading would call `Auth::check()`. */
  lemma StaticMiddlewareIsConstructed(c: string, me: string, controller: string)
    requires IsName(c) && IsName(me) && !Contains(controller, StaticSep)
    ensures MiddlewareTarget(c + StaticSep + me, controller) == Construct(c + StaticSep + me)
    ensures Classify(c + StaticSep + me) == Static(c, me)
  {
    ClassifyRender(Static(c, me));
  }
}
