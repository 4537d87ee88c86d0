/** The parts of a message: numbering and resolving them, as in section 6.4.5 of RFC 3501. */
module MimeParts {
  import opened Prelude
  import opened GoSlices

  /** models.BodyStructure; strings.ToLower is the parameter `lower` of what uses it. */
  datatype Body = Body(mimeType: string, mimeSubType: string, contentId: string, parts: seq<Body>)

  type Lower = string -> string

  predicate IsMultipart(lower: Lower, b: Body) {
    lower(b.mimeType) == "multipart"
  }

  function FullMimeType(lower: Lower, b: Body): string {
    lower(b.mimeType + "/" + b.mimeSubType)
  }

  /** strings.ToLower works on a text piece by piece, and leaves the slash. */
  ghost predicate IsLower(lower: Lower) {
    (forall a, b :: lower(a + b) == lower(a) + lower(b)) && lower("/") == "/"
  }

  lemma MimeTypeIs(lower: Lower, b: Body, kind: string, sub: string)
    requires IsLower(lower) && '/' !in kind && '/' !in lower(b.mimeType)
    ensures FullMimeType(lower, b) == kind + "/" + sub <==> lower(b.mimeType) == kind && lower(b.mimeSubType) == sub
  {
    var full := lower(b.mimeType) + "/" + lower(b.mimeSubType);
    assert b.mimeType + "/" + b.mimeSubType == (b.mimeType + "/") + b.mimeSubType;
    assert FullMimeType(lower, b) == full;
    if full == kind + "/" + sub {
      OneSlash(lower(b.mimeType), lower(b.mimeSubType), kind, sub);
    }
  }

  lemma OneSlash(a: string, b: string, c: string, d: string)
    requires '/' !in a && '/' !in c && a + "/" + b == c + "/" + d
    ensures a == c && b == d
  {
    var s, t := a + "/" + b, c + "/" + d;
    assert s[|a|] == '/' && t[|c|] == '/';
    assert forall n :: 0 <= n < |a| ==> s[n] == a[n];
    assert forall n :: 0 <= n < |c| ==> t[n] == c[n];
    assert !(|a| < |c|) && !(|c| < |a|);
    assert s[..|a|] == a && t[..|c|] == c && s[|a| + 1..] == b && t[|c| + 1..] == d;
  }

  datatype PathError = NotOneBased | TooDeep | NotMultipart(cur: int) | NoSuchPart(cur: int, children: nat)

  /** PartAtIndex: the part that a path of 1-based positions leads to. */
  function PartAtIndex(b: Body, index: seq<int>): Result<Body, PathError>
    decreases |index|
  {
    if index == [] then Ok(b)
    else if index[0] < 1 then Err(NotOneBased)
    else if b.parts == [] then
      if |index| > 1 then Err(TooDeep)
      else if index[0] == 1 then Ok(b)
      else Err(NotMultipart(index[0]))
    else if index[0] > |b.parts| then Err(NoSuchPart(index[0], |b.parts|))
    else PartAtIndex(b.parts[index[0] - 1], index[1..])
  }

  // ---------- paths ----------

  /** A path resolves just when it leads to a part, or goes on from a part without parts by one position 1. */
  lemma {:induction false} ResolvesIff(b: Body, p: seq<int>)
    ensures PartAtIndex(b, p).Ok? <==>
      || At(b, p).Some?
      || (p != [] && p[|p| - 1] == 1 && At(b, p[..|p| - 1]).Some? && At(b, p[..|p| - 1]).value.parts == [])
    decreases |p|
  {
    if p != [] && 1 <= p[0] <= |b.parts| {
      ResolvesIff(b.parts[p[0] - 1], p[1..]);
      if |p| > 1 {
        assert p[..|p| - 1][0] == p[0] && p[..|p| - 1][1..] == p[1..][..|p| - 2];
      } else {
        assert p[..0] == [] && p[1..] == [];
      }
    } else if |p| == 1 {
      assert p[..0] == [];
    } else if p != [] {
      assert p[..|p| - 1][0] == p[0];
    }
  }

  /** The part at a path of 1-based positions, containers of any kind being entered. */
  function At(b: Body, q: seq<int>): Option<Body>
    decreases |q|
  {
    if q == [] then Some(b)
    else if 1 <= q[0] <= |b.parts| then At(b.parts[q[0] - 1], q[1..])
    else None
  }

  lemma {:induction false} AtResolves(b: Body, q: seq<int>)
    requires At(b, q).Some?
    ensures PartAtIndex(b, q) == Ok(At(b, q).value)
    decreases |q|
  {
    if q != [] {
      AtResolves(b.parts[q[0] - 1], q[1..]);
    }
  }

  /** `p` leads from `b` down to a part, through multiparts only, to a part that satisfies `goal`. */
  predicate Leads(lower: Lower, b: Body, p: seq<int>, goal: Body -> bool)
    decreases |p|
  {
    && p != [] && 1 <= p[0] <= |b.parts|
    && (if |p| == 1 then goal(b.parts[p[0] - 1])
        else IsMultipart(lower, b.parts[p[0] - 1]) && Leads(lower, b.parts[p[0] - 1], p[1..], goal))
  }

  /** Order of the parts in a depth-first walk: a part before those inside of it, siblings by number. */
  predicate Before(p: seq<int>, q: seq<int>)
    decreases |p|
  {
    && q != []
    && (p == [] || p[0] < q[0] || (p[0] == q[0] && Before(p[1..], q[1..])))
  }

  ghost predicate InOrder(ps: seq<seq<int>>) {
    forall i, j :: 0 <= i < j < |ps| ==> Before(ps[i], ps[j])
  }

  lemma {:induction false} BeforeIsStrict(p: seq<int>)
    ensures !Before(p, p)
  {
    if p != [] {
      BeforeIsStrict(p[1..]);
    }
  }

  /** Each path, seen from the parent of the part it starts at. */
  function Prefixed(n: int, ps: seq<seq<int>>): (r: seq<seq<int>>)
    ensures |r| == |ps|
    ensures forall i :: 0 <= i < |r| ==> r[i] == [n] + ps[i]
  {
    seq(|ps|, i requires 0 <= i < |ps| => [n] + ps[i])
  }

  /** What child number `i` contributes: itself if it satisfies `goal`, then the parts inside of it. */
  function ChildPaths(lower: Lower, b: Body, i: nat, goal: Body -> bool): seq<seq<int>>
    requires i < |b.parts|
    decreases b, 0
  {
    var part := b.parts[i];
    (if goal(part) then [[i + 1]] else [])
    + (if IsMultipart(lower, part) then Prefixed(i + 1, PartPaths(lower, part, 0, goal)) else [])
  }

  /** The paths of the parts that satisfy `goal`, from child number `i` on, in depth-first order. */
  function PartPaths(lower: Lower, b: Body, i: nat, goal: Body -> bool): seq<seq<int>>
    requires i <= |b.parts|
    decreases b, 1, |b.parts| - i
  {
    if i == |b.parts| then [] else ChildPaths(lower, b, i, goal) + PartPaths(lower, b, i + 1, goal)
  }

  lemma InPrefixed(n: int, ps: seq<seq<int>>, p: seq<int>)
    ensures p in Prefixed(n, ps) <==> p != [] && p[0] == n && p[1..] in ps
  {
    if p in Prefixed(n, ps) {
      var k :| 0 <= k < |ps| && Prefixed(n, ps)[k] == p;
      assert p[1..] == ps[k];
    }
    if p != [] && p[0] == n && p[1..] in ps {
      var k :| 0 <= k < |ps| && ps[k] == p[1..];
      assert Prefixed(n, ps)[k] == p;
    }
  }

  lemma {:induction false} ChildPathsAreAll(lower: Lower, b: Body, i: nat, goal: Body -> bool, p: seq<int>)
    requires i < |b.parts|
    ensures p in ChildPaths(lower, b, i, goal) <==> Leads(lower, b, p, goal) && p[0] == i + 1
    decreases b, 0
  {
    var part := b.parts[i];
    var inside := PartPaths(lower, part, 0, goal);
    var own := if goal(part) then [[i + 1]] else [];
    var sub := if IsMultipart(lower, part) then Prefixed(i + 1, inside) else [];
    InConcat(own, sub, p);
    InPrefixed(i + 1, inside, p);
    if p != [] {
      PartPathsAreAll(lower, part, 0, goal, p[1..]);
      assert p in own <==> goal(part) && p[0] == i + 1 && |p| == 1 by {
        assert |p| == 1 ==> p == [p[0]];
      }
    }
  }

  lemma InConcat<T>(a: seq<T>, b: seq<T>, x: T)
    ensures x in a + b <==> x in a || x in b
  {
  }

  /** PartPaths lists every path to such a part, and nothing else. */
  lemma {:induction false} PartPathsAreAll(lower: Lower, b: Body, i: nat, goal: Body -> bool, p: seq<int>)
    requires i <= |b.parts|
    ensures p in PartPaths(lower, b, i, goal) <==> Leads(lower, b, p, goal) && p[0] > i
    decreases b, 1, |b.parts| - i
  {
    if i < |b.parts| {
      ChildPathsAreAll(lower, b, i, goal, p);
      PartPathsAreAll(lower, b, i + 1, goal, p);
      InConcat(ChildPaths(lower, b, i, goal), PartPaths(lower, b, i + 1, goal), p);
    }
  }

  lemma {:induction false} ChildPathsInOrder(lower: Lower, b: Body, i: nat, goal: Body -> bool)
    requires i < |b.parts|
    ensures InOrder(ChildPaths(lower, b, i, goal))
    decreases b, 0
  {
    var part := b.parts[i];
    var ps := ChildPaths(lower, b, i, goal);
    if IsMultipart(lower, part) {
      PartPathsInOrder(lower, part, 0, goal);
      var sub := PartPaths(lower, part, 0, goal);
      var n := |ps| - |sub|;
      forall j, k | 0 <= j < k < |ps| ensures Before(ps[j], ps[k]) {
        assert ps[k] == [i + 1] + sub[k - n] && ps[k][1..] == sub[k - n];
        if j >= n {
          assert ps[j] == [i + 1] + sub[j - n] && ps[j][1..] == sub[j - n];
        } else {
          PartPathsAreAll(lower, part, 0, goal, sub[k - n]);
          assert ps[j] == [i + 1] && ps[j][1..] == [];
        }
      }
    }
  }

  lemma {:induction false} PartPathsInOrder(lower: Lower, b: Body, i: nat, goal: Body -> bool)
    requires i <= |b.parts|
    ensures InOrder(PartPaths(lower, b, i, goal))
    decreases b, 1, |b.parts| - i
  {
    if i < |b.parts| {
      ChildPathsInOrder(lower, b, i, goal);
      PartPathsInOrder(lower, b, i + 1, goal);
      var first := ChildPaths(lower, b, i, goal);
      var rest := PartPaths(lower, b, i + 1, goal);
      forall j, k | 0 <= j < |first| && 0 <= k < |rest| ensures Before(first[j], rest[k]) {
        ChildPathsAreAll(lower, b, i, goal, first[j]);
        PartPathsAreAll(lower, b, i + 1, goal, rest[k]);
      }
      forall j, k | 0 <= j < k < |first + rest| ensures Before((first + rest)[j], (first + rest)[k]) {}
    }
  }

  /** A path through multiparts leads to a part that satisfies `goal`. */
  lemma {:induction false} LeadsToGoal(lower: Lower, b: Body, p: seq<int>, goal: Body -> bool)
    requires Leads(lower, b, p, goal)
    ensures At(b, p).Some? && goal(At(b, p).value)
    decreases |p|
  {
    if |p| == 1 {
      assert p[1..] == [];
    } else {
      LeadsToGoal(lower, b.parts[p[0] - 1], p[1..], goal);
    }
  }

  /** The parts to be shown one by one: all that are not containers of others. */
  function Leaf(lower: Lower): Body -> bool {
    b => !IsMultipart(lower, b)
  }

  function OfType(lower: Lower, mime: string): Body -> bool {
    b => FullMimeType(lower, b) == mime
  }

  /** Each listed path is listed once, and resolves to the part at that path, which satisfies `goal`. */
  lemma PartPathsResolve(lower: Lower, b: Body, goal: Body -> bool, i: nat)
    requires i < |PartPaths(lower, b, 0, goal)|
    ensures var p := PartPaths(lower, b, 0, goal)[i];
      At(b, p).Some? && PartAtIndex(b, p) == Ok(At(b, p).value) && goal(At(b, p).value)
    ensures forall j :: 0 <= j < |PartPaths(lower, b, 0, goal)| && j != i ==>
      PartPaths(lower, b, 0, goal)[j] != PartPaths(lower, b, 0, goal)[i]
  {
    var ps := PartPaths(lower, b, 0, goal);
    PartPathsAreAll(lower, b, 0, goal, ps[i]);
    LeadsToGoal(lower, b, ps[i], goal);
    AtResolves(b, ps[i]);
    PartPathsInOrder(lower, b, 0, goal);
    BeforeIsStrict(ps[i]);
  }

  // ---------- enumerating ----------

  function Under(path: seq<int>, ps: seq<seq<int>>): (r: seq<seq<int>>)
    ensures |r| == |ps|
    ensures forall i :: 0 <= i < |r| ==> r[i] == path + ps[i]
  {
    seq(|ps|, i requires 0 <= i < |ps| => path + ps[i])
  }

  lemma ListStep(got: seq<seq<int>>, path: seq<int>, a: seq<seq<int>>, b: seq<seq<int>>)
    ensures got + Under(path, a + b) == (got + Under(path, a)) + Under(path, b)
  {
    assert Under(path, a + b) == Under(path, a) + Under(path, b);
  }

  lemma UnderPrefixed(path: seq<int>, n: int, ps: seq<seq<int>>)
    ensures Under(path, Prefixed(n, ps)) == Under(path + [n], ps)
  {
    forall i | 0 <= i < |ps| ensures path + ([n] + ps[i]) == (path + [n]) + ps[i] {}
  }

  /** The slices of `list` hold the paths `ps`. */
  ghost predicate Hold(list: seq<Slice>, ps: seq<seq<int>>)
    reads set i | 0 <= i < |list| :: list[i].arr
  {
    |list| == |ps| && forall i :: 0 <= i < |list| ==> list[i].Valid() && list[i].Elems() == ps[i]
  }

  lemma HoldConcat(a: seq<Slice>, ps: seq<seq<int>>, b: seq<Slice>, qs: seq<seq<int>>)
    requires Hold(a, ps) && Hold(b, qs)
    ensures Hold(a + b, ps + qs)
  {
  }

  /** FindAllNonMultipart without the list that it appends to. Siblings may overwrite each other's
      last position in the array of `path`; the copies that are listed are never written again. */
  method FindAllNonMultipart(lower: Lower, b: Body, path: Slice) returns (list: seq<Slice>)
    requires path.Valid()
    modifies path.arr
    ensures path.Elems() == old(path.Elems())
    ensures forall i :: 0 <= i < |list| ==> fresh(list[i].arr)
    ensures Hold(list, Under(path.Elems(), PartPaths(lower, b, 0, Leaf(lower))))
    decreases b, 1
  {
    list := [];
    var i := 0;
    ghost var here := path.Elems();
    ghost var got := [];
    while i < |b.parts|
      invariant i <= |b.parts|
      invariant path.Elems() == here
      invariant forall k :: 0 <= k < |list| ==> fresh(list[k].arr)
      invariant Hold(list, got)
      invariant got + Under(here, PartPaths(lower, b, i, Leaf(lower)))
             == Under(here, PartPaths(lower, b, 0, Leaf(lower)))
    {
      ghost var more := Under(here, ChildPaths(lower, b, i, Leaf(lower)));
      ListStep(got, here, ChildPaths(lower, b, i, Leaf(lower)), PartPaths(lower, b, i + 1, Leaf(lower)));
      var sub := FindInChild(lower, b, path, i);
      HoldConcat(list, got, sub, more);
      list := list + sub;
      got := got + more;
      i := i + 1;
    }
  }

  method FindInChild(lower: Lower, b: Body, path: Slice, i: nat) returns (list: seq<Slice>)
    requires path.Valid() && i < |b.parts|
    modifies path.arr
    ensures path.Elems() == old(path.Elems())
    ensures forall k :: 0 <= k < |list| ==> fresh(list[k].arr)
    ensures Hold(list, Under(path.Elems(), ChildPaths(lower, b, i, Leaf(lower))))
    decreases b, 0
  {
    ghost var here := path.Elems();
    var part := b.parts[i];
    var cur := Append(path, i + 1);
    if !IsMultipart(lower, part) {
      var tmp := Copy(cur);
      list := [tmp];
    } else {
      list := FindAllNonMultipart(lower, part, cur);
      UnderPrefixed(here, i + 1, PartPaths(lower, part, 0, Leaf(lower)));
      assert path.Elems() == here;
    }
  }

  /** The result of a search: the first path, or nothing when there is none. */
  ghost predicate Finds(found: Option<Slice>, path: seq<int>, ps: seq<seq<int>>)
    reads if found.Some? then {found.value.arr} else {}
  {
    if ps == [] then found == None
    else found.Some? && found.value.Valid() && found.value.Elems() == path + ps[0]
  }

  /** The depth-first search shared by FindMIMEPart and FindFirstNonMultipart. */
  method FindPart(lower: Lower, b: Body, path: Slice, goal: Body -> bool) returns (found: Option<Slice>)
    requires path.Valid()
    modifies path.arr
    ensures path.Elems() == old(path.Elems())
    ensures Finds(found, path.Elems(), PartPaths(lower, b, 0, goal))
    decreases b, 1
  {
    found := None;
    var i := 0;
    ghost var here := path.Elems();
    while i < |b.parts|
      invariant i <= |b.parts|
      invariant path.Elems() == here && found == None
      invariant PartPaths(lower, b, i, goal) == PartPaths(lower, b, 0, goal)
    {
      FirstOfBoth(ChildPaths(lower, b, i, goal), PartPaths(lower, b, i + 1, goal));
      found := FindPartInChild(lower, b, path, i, goal);
      if found.Some? {
        return;
      }
      i := i + 1;
    }
  }

  lemma FirstOfBoth(a: seq<seq<int>>, b: seq<seq<int>>)
    ensures if a == [] then a + b == b else a + b != [] && (a + b)[0] == a[0]
  {
  }

  method FindPartInChild(lower: Lower, b: Body, path: Slice, i: nat, goal: Body -> bool) returns (found: Option<Slice>)
    requires path.Valid() && i < |b.parts|
    modifies path.arr
    ensures path.Elems() == old(path.Elems())
    ensures Finds(found, path.Elems(), ChildPaths(lower, b, i, goal))
    decreases b, 0
  {
    var part := b.parts[i];
    ghost var here := path.Elems();
    var cur := Append(path, i + 1);
    found := None;
    if goal(part) {
      return Some(cur);
    }
    if IsMultipart(lower, part) {
      ghost var sub := PartPaths(lower, part, 0, goal);
      found := FindPart(lower, part, cur, goal);
      assert path.Elems() == here;
      if sub != [] {
        ConcatAssoc(here, [i + 1], sub[0]);
      }
    }
  }

  method FindMIMEPart(lower: Lower, mime: string, b: Body, path: Slice) returns (found: Option<Slice>)
    requires path.Valid()
    modifies path.arr
    ensures Finds(found, old(path.Elems()), PartPaths(lower, b, 0, OfType(lower, mime)))
  {
    found := FindPart(lower, b, path, OfType(lower, mime));
  }

  method FindFirstNonMultipart(lower: Lower, b: Body, path: Slice) returns (found: Option<Slice>)
    requires path.Valid()
    modifies path.arr
    ensures Finds(found, old(path.Elems()), PartPaths(lower, b, 0, Leaf(lower)))
  {
    found := FindPart(lower, b, path, Leaf(lower));
  }

  // ---------- Content-ID ----------

  predicate IsAngle(c: char) {
    c == '<' || c == '>'
  }

  /** strings.Trim(s, "<>") */
  function TrimAngles(s: string): (r: string)
    ensures r != "" ==> !IsAngle(r[0]) && !IsAngle(r[|r| - 1])
  {
    if s != "" && IsAngle(s[0]) then TrimAngles(s[1..])
    else if s != "" && IsAngle(s[|s| - 1]) then TrimAngles(s[..|s| - 1])
    else s
  }

  /** A middle part of the text, with nothing but angle brackets around it and none at its ends. */
  lemma {:induction false} TrimAnglesIs(s: string, i: nat, j: nat)
    requires i <= j <= |s|
    requires (forall k :: 0 <= k < i ==> IsAngle(s[k])) && forall k :: j <= k < |s| ==> IsAngle(s[k])
    requires if i == j then j == |s| else !IsAngle(s[i]) && !IsAngle(s[j - 1])
    ensures TrimAngles(s) == s[i..j]
    decreases |s|
  {
    if i > 0 {
      TrimAnglesIs(s[1..], i - 1, j - 1);
      assert s[1..][i - 1..j - 1] == s[i..j];
    } else if j < |s| {
      TrimAnglesIs(s[..|s| - 1], i, j);
      assert s[..|s| - 1][i..j] == s[i..j];
    } else {
      assert s[i..j] == s;
    }
  }

  datatype PartInfo = PartInfo(index: seq<int>, mimeType: string)

  predicate HasId(b: Body, q: seq<int>, cid: string) {
    var part := At(b, q);
    part.Some? && part.value.contentId != "" && TrimAngles(part.value.contentId) == cid
  }

  function OwnEntry(lower: Lower, b: Body, index: seq<int>): map<string, PartInfo> {
    if b.contentId == "" then map[]
    else map[TrimAngles(b.contentId) := PartInfo(index, FullMimeType(lower, b))]
  }

  /** The entries of a part and of its first `n` children; where they clash, the later one stays. */
  function IdMap(lower: Lower, b: Body, index: seq<int>, n: nat): map<string, PartInfo>
    requires n <= |b.parts|
    decreases b, n
  {
    if n == 0 then OwnEntry(lower, b, index)
    else
      var part := b.parts[n - 1];
      IdMap(lower, b, index, n - 1) + IdMap(lower, part, index + [n], |part.parts|)
  }

  method BuildContentIDMap(lower: Lower, b: Option<Body>, index: seq<int>) returns (result: map<string, PartInfo>)
    ensures result == if b.None? then map[] else IdMap(lower, b.value, index, |b.value.parts|)
  {
    if b.None? {
      return map[];
    }
    result := IdsOf(lower, b.value, index);
  }

  method IdsOf(lower: Lower, b: Body, index: seq<int>) returns (result: map<string, PartInfo>)
    ensures result == IdMap(lower, b, index, |b.parts|)
    decreases b
  {
    result := map[];
    if b.contentId != "" {
      result := result[TrimAngles(b.contentId) := PartInfo(index, FullMimeType(lower, b))];
    }
    var i := 0;
    while i < |b.parts|
      invariant i <= |b.parts|
      invariant result == IdMap(lower, b, index, i)
    {
      var sub := IdsOf(lower, b.parts[i], index + [i + 1]);
      IdMapNext(lower, b, index, i);
      result := result + sub;
      i := i + 1;
    }
  }

  lemma IdMapNext(lower: Lower, b: Body, index: seq<int>, i: nat)
    requires i < |b.parts|
    ensures IdMap(lower, b, index, i + 1)
      == IdMap(lower, b, index, i) + IdMap(lower, b.parts[i], index + [i + 1], |b.parts[i].parts|)
  {
  }

  /** `q` is the last place, in depth-first order among the first `n` children, with this Content-ID. */
  ghost predicate LastWithId(b: Body, n: nat, q: seq<int>, cid: string) {
    && HasId(b, q, cid) && Within(q, n)
    && forall r :: HasId(b, r, cid) && Within(r, n) ==> r == q || Before(r, q)
  }

  predicate Within(q: seq<int>, n: nat) {
    q != [] ==> q[0] <= n
  }

  /** The entry `info` is for the last part with this Content-ID. */
  ghost predicate EntryFor(lower: Lower, b: Body, index: seq<int>, n: nat, cid: string, info: PartInfo) {
    && |info.index| >= |index| && info.index[..|index|] == index
    && var q := info.index[|index|..];
       LastWithId(b, n, q, cid) && info.mimeType == FullMimeType(lower, At(b, q).value)
  }

  ghost predicate Absent(b: Body, n: nat, cid: string) {
    forall q :: HasId(b, q, cid) ==> !Within(q, n)
  }

  /** A place among the first `n` children is among the first `n - 1`, or inside of the last one. */
  lemma WithinStep(b: Body, n: nat, q: seq<int>, cid: string)
    requires 0 < n <= |b.parts| && HasId(b, q, cid) && Within(q, n)
    ensures var part := b.parts[n - 1];
      Within(q, n - 1) || (q[0] == n && HasId(part, q[1..], cid) && Within(q[1..], |part.parts|))
  {
  }

  lemma EntryInChild(lower: Lower, b: Body, index: seq<int>, n: nat, cid: string, info: PartInfo)
    requires 0 < n <= |b.parts|
    requires EntryFor(lower, b.parts[n - 1], index + [n], |b.parts[n - 1].parts|, cid, info)
    ensures EntryFor(lower, b, index, n, cid, info)
  {
    var q := info.index[|index| + 1..];
    var q' := info.index[|index|..];
    assert index == (index + [n])[..|index|] == info.index[..|index|];
    assert q' == [n] + q && q'[1..] == q by {
      assert info.index[|index|] == info.index[..|index| + 1][|index|] == n;
    }
    forall r | HasId(b, r, cid) && Within(r, n) ensures r == q' || Before(r, q') {
      WithinStep(b, n, r, cid);
      if !Within(r, n - 1) {
        assert r == [r[0]] + r[1..];
      }
    }
  }

  lemma EntryBefore(lower: Lower, b: Body, index: seq<int>, n: nat, cid: string, info: PartInfo)
    requires 0 < n <= |b.parts|
    requires EntryFor(lower, b, index, n - 1, cid, info) && Absent(b.parts[n - 1], |b.parts[n - 1].parts|, cid)
    ensures EntryFor(lower, b, index, n, cid, info)
  {
    forall r | HasId(b, r, cid) && Within(r, n) ensures Within(r, n - 1) {
      WithinStep(b, n, r, cid);
    }
  }

  lemma AbsentStep(b: Body, n: nat, cid: string)
    requires 0 < n <= |b.parts|
    requires Absent(b, n - 1, cid) && Absent(b.parts[n - 1], |b.parts[n - 1].parts|, cid)
    ensures Absent(b, n, cid)
  {
    forall q | HasId(b, q, cid) ensures !Within(q, n) {
      if Within(q, n) {
        WithinStep(b, n, q, cid);
      }
    }
  }

  /** What a map promises about one Content-ID. */
  ghost predicate Describes(
    lower: Lower, b: Body, index: seq<int>, n: nat, cid: string, m: map<string, PartInfo>)
  {
    if cid in m then EntryFor(lower, b, index, n, cid, m[cid]) else Absent(b, n, cid)
  }

  lemma OwnEntryDescribes(lower: Lower, b: Body, index: seq<int>, cid: string)
    ensures Describes(lower, b, index, 0, cid, OwnEntry(lower, b, index))
  {
    var m := OwnEntry(lower, b, index);
    if cid in m {
      assert m[cid].index[|index|..] == [];
      assert LastWithId(b, 0, [], cid);
    }
  }

  lemma MergeDescribes(
    lower: Lower, b: Body, index: seq<int>, n: nat, cid: string,
    before: map<string, PartInfo>, sub: map<string, PartInfo>)
    requires 0 < n <= |b.parts|
    requires Describes(lower, b, index, n - 1, cid, before)
    requires Describes(lower, b.parts[n - 1], index + [n], |b.parts[n - 1].parts|, cid, sub)
    ensures Describes(lower, b, index, n, cid, before + sub)
  {
    if cid in sub {
      EntryInChild(lower, b, index, n, cid, sub[cid]);
    } else if cid in before {
      EntryBefore(lower, b, index, n, cid, before[cid]);
    } else {
      AbsentStep(b, n, cid);
    }
  }

  /** The map has an entry for exactly the Content-IDs in the tree, each for the last part that has it. */
  lemma {:induction false} IdMapDescribes(lower: Lower, b: Body, index: seq<int>, n: nat, cid: string)
    requires n <= |b.parts|
    ensures Describes(lower, b, index, n, cid, IdMap(lower, b, index, n))
    decreases b, n
  {
    if n == 0 {
      OwnEntryDescribes(lower, b, index, cid);
    } else {
      var part := b.parts[n - 1];
      IdMapDescribes(lower, b, index, n - 1, cid);
      IdMapDescribes(lower, part, index + [n], |part.parts|, cid);
      MergeDescribes(lower, b, index, n, cid,
        IdMap(lower, b, index, n - 1), IdMap(lower, part, index + [n], |part.parts|));
    }
  }

  /** Every entry of buildContentIDMap resolves to a part with that trimmed Content-ID. */
  lemma IdMapResolves(lower: Lower, b: Body, cid: string)
    ensures var m := IdMap(lower, b, [], |b.parts|);
      && (cid in m <==> exists q :: HasId(b, q, cid))
      && (cid in m ==>
            var part := PartAtIndex(b, m[cid].index);
            && part.Ok? && part.value.contentId != "" && TrimAngles(part.value.contentId) == cid
            && m[cid].mimeType == FullMimeType(lower, part.value))
  {
    var m := IdMap(lower, b, [], |b.parts|);
    IdMapDescribes(lower, b, [], |b.parts|, cid);
    forall q | HasId(b, q, cid) ensures Within(q, |b.parts|) {}
    if cid in m {
      var q := m[cid].index;
      assert q[0..] == q;
      AtResolves(b, q);
      assert HasId(b, q, cid);
    }
  }
}
