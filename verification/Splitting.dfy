/** `find`, `split` and `join` as Python defines them on byte strings. */
module Splitting {

  predicate At<T(==)>(s: seq<T>, sep: seq<T>, p: nat) {
    p + |sep| <= |s| && s[p..p + |sep|] == sep
  }

  /** The first occurrence of `sep` at or after `start`, or -1. */
  function FindFrom<T(==)>(s: seq<T>, sep: seq<T>, start: nat): (r: int)
    requires sep != []
    ensures r == -1 || (start <= r && At(s, sep, r))
    decreases |s| - start
  {
    if |s| < start + |sep| then -1
    else if At(s, sep, start) then start
    else FindFrom(s, sep, start + 1)
  }

  /** The first occurrence of `sep`, or -1. */
  function Find<T(==)>(s: seq<T>, sep: seq<T>): (r: int)
    requires sep != []
    ensures r == -1 || (0 <= r && At(s, sep, r))
  {
    FindFrom(s, sep, 0)
  }

  /** Nothing earlier is skipped. */
  lemma {:induction false} FindFromFirst<T>(s: seq<T>, sep: seq<T>, start: nat)
    requires sep != []
    ensures var r := FindFrom(s, sep, start);
            forall p: nat :: start <= p && (r < 0 || p < r) ==> !At(s, sep, p)
    decreases |s| - start
  {
    if start + |sep| <= |s| && !At(s, sep, start) {
      FindFromFirst(s, sep, start + 1);
    }
  }

  /** Cut at every separator, from the left, without overlap. */
  function Split<T(==)>(s: seq<T>, sep: seq<T>): (r: seq<seq<T>>)
    requires sep != []
    ensures r != []
    decreases |s|
  {
    var k := Find(s, sep);
    if k < 0 then [s] else [s[..k]] + Split(s[k + |sep|..], sep)
  }

  /** Cut at the first `n` separators only. */
  function SplitN<T(==)>(s: seq<T>, sep: seq<T>, n: nat): (r: seq<seq<T>>)
    requires sep != []
    ensures 1 <= |r| <= n + 1
    decreases |s|
  {
    var k := Find(s, sep);
    if n == 0 || k < 0 then [s] else [s[..k]] + SplitN(s[k + |sep|..], sep, n - 1)
  }

  function Join<T>(parts: seq<seq<T>>, sep: seq<T>): seq<T> {
    if parts == [] then []
    else if |parts| == 1 then parts[0]
    else parts[0] + sep + Join(parts[1..], sep)
  }

  function Concat<T>(parts: seq<seq<T>>): seq<T> {
    if parts == [] then [] else Concat(parts[..|parts| - 1]) + parts[|parts| - 1]
  }

  function Init<T>(s: seq<T>): seq<T> requires s != [] { s[..|s| - 1] }
  function Last<T>(s: seq<T>): T requires s != [] { s[|s| - 1] }

  lemma {:induction false} FindIs<T>(s: seq<T>, sep: seq<T>, k: nat)
    requires sep != [] && At(s, sep, k) && forall p: nat :: p < k ==> !At(s, sep, p)
    ensures Find(s, sep) == k
  {
    FindFromFirst(s, sep, 0);
  }

  lemma {:induction false} FindNone<T>(s: seq<T>, sep: seq<T>)
    requires sep != [] && forall p: nat :: !At(s, sep, p)
    ensures Find(s, sep) == -1
  {}

  lemma {:induction false} AtInside<T>(a: seq<T>, b: seq<T>, sep: seq<T>, p: nat)
    requires p + |sep| <= |a|
    ensures At(a + b, sep, p) == At(a, sep, p)
  {
    assert (a + b)[p..p + |sep|] == a[p..p + |sep|];
  }

  lemma {:induction false} AtFirst<T>(s: seq<T>, sep: seq<T>, p: nat)
    requires sep != [] && p < |s| && s[p] != sep[0]
    ensures !At(s, sep, p)
  {
    if p + |sep| <= |s| { assert s[p..p + |sep|][0] == s[p]; }
  }

  /** A match that is complete inside `a` is found first, whatever follows `a`. */
  lemma {:induction false} FindExtends<T>(a: seq<T>, b: seq<T>, sep: seq<T>)
    requires sep != [] && Find(a, sep) >= 0
    ensures Find(a + b, sep) == Find(a, sep)
  {
    var k := Find(a, sep);
    FindFromFirst(a, sep, 0);
    forall p: nat | p <= k ensures At(a + b, sep, p) == At(a, sep, p) {
      AtInside(a, b, sep, p);
    }
    FindIs(a + b, sep, k);
  }

  /** The last piece of a split has no separator left in it. */
  lemma {:induction false} LastHasNone<T>(s: seq<T>, sep: seq<T>)
    requires sep != []
    ensures Find(Last(Split(s, sep)), sep) < 0
    decreases |s|
  {
    var k := Find(s, sep);
    if k >= 0 { LastHasNone(s[k + |sep|..], sep); }
  }

  lemma {:induction false} ConsInitLast<T>(h: T, t: seq<T>, x: seq<T>)
    requires t != []
    ensures Last([h] + t) == Last(t) && Init([h] + t) + x == [h] + (Init(t) + x)
  {}

  /** Splitting can stop at any cut and resume with the unfinished piece. */
  lemma {:induction false} SplitResumes<T>(a: seq<T>, b: seq<T>, sep: seq<T>)
    requires sep != []
    ensures Split(a + b, sep) == Init(Split(a, sep)) + Split(Last(Split(a, sep)) + b, sep)
    decreases |a|
  {
    var k := Find(a, sep);
    if k >= 0 {
      var head, rest := a[..k], a[k + |sep|..];
      var t := Split(rest, sep);
      SplitResumes(rest, b, sep);
      assert Split(a, sep) == [head] + t;
      assert Split(a + b, sep) == [head] + Split(rest + b, sep) by {
        FindExtends(a, b, sep);
        assert (a + b)[k + |sep|..] == rest + b;
        assert (a + b)[..k] == head;
      }
      ConsInitLast(head, t, Split(Last(t) + b, sep));
    } else {
      assert Split(a, sep) == [a];
    }
  }

  /** The same in terms of pieces carried by a reader. */
  lemma {:induction false} SplitAccumulates<T>(lines: seq<seq<T>>, pending: seq<T>, a: seq<T>, b: seq<T>, sep: seq<T>)
    requires sep != [] && lines + [pending] == Split(a, sep)
    ensures Split(a + b, sep) == lines + Split(pending + b, sep)
  {
    SplitResumes(a, b, sep);
    var s := lines + [pending];
    assert Init(s) == lines && Last(s) == pending;
  }

  lemma {:induction false} JoinCons<T>(part: seq<T>, rest: seq<seq<T>>, sep: seq<T>)
    requires rest != []
    ensures Join([part] + rest, sep) == part + sep + Join(rest, sep)
  {
    assert ([part] + rest)[1..] == rest;
  }

  lemma {:induction false} JoinOfSplit<T>(s: seq<T>, sep: seq<T>)
    requires sep != []
    ensures Join(Split(s, sep), sep) == s
    decreases |s|
  {
    var k := Find(s, sep);
    if k >= 0 {
      var rest := s[k + |sep|..];
      JoinOfSplit(rest, sep);
      assert s == s[..k] + sep + rest;
      assert Split(s, sep) == [s[..k]] + Split(rest, sep);
      hide Split, Find, At;
      JoinCons(s[..k], Split(rest, sep), sep);
    }
  }

  lemma {:induction false} AtOne<T>(s: seq<T>, c: T, p: nat)
    ensures At(s, [c], p) <==> p < |s| && s[p] == c
  {
    if p < |s| { assert s[p..p + 1] == [s[p]]; }
  }

  lemma {:induction false} FindOne<T>(s: seq<T>, c: T)
    ensures var k := Find(s, [c]);
            if k < 0 then c !in s else k < |s| && s[k] == c && c !in s[..k]
  {
    var k := Find(s, [c]);
    FindFromFirst(s, [c], 0);
    forall p: nat ensures At(s, [c], p) <==> p < |s| && s[p] == c {
      AtOne(s, c, p);
    }
    if k >= 0 { AtOne(s, c, k); }
  }

  /** The pieces of a one-byte split never contain the separator. */
  lemma {:induction false} PiecesClean<T>(s: seq<T>, c: T)
    ensures forall w :: w in Split(s, [c]) ==> c !in w
    decreases |s|
  {
    var k := Find(s, [c]);
    FindOne(s, c);
    if k >= 0 {
      var rest := s[k + |[c]|..];
      PiecesClean(rest, c);
      assert Split(s, [c]) == [s[..k]] + Split(rest, [c]);
    }
  }

  /** The pieces hold nothing that the whole does not. */
  lemma {:induction false} PiecesInside<T>(s: seq<T>, sep: seq<T>)
    requires sep != []
    ensures forall w, x :: w in Split(s, sep) && x in w ==> x in s
    decreases |s|
  {
    var k := Find(s, sep);
    if k >= 0 {
      var rest := s[k + |sep|..];
      PiecesInside(rest, sep);
      assert Split(s, sep) == [s[..k]] + Split(rest, sep);
    }
  }

  lemma {:induction false} SplitHead<T>(x: seq<T>, c: T, rest: seq<T>)
    requires c !in x
    ensures Find(x + [c] + rest, [c]) == |x|
  {
    var s := x + [c] + rest;
    AtOne(s, c, |x|);
    forall p: nat | p < |x| ensures !At(s, [c], p) {
      AtOne(s, c, p);
      assert s[p] == x[p];
    }
    FindIs(s, [c], |x|);
  }

  /** Joining and splitting gives the parts back when none contains the separator byte. */
  lemma {:induction false} SplitOfJoin<T>(parts: seq<seq<T>>, c: T)
    requires parts != [] && forall w :: w in parts ==> c !in w
    ensures Split(Join(parts, [c]), [c]) == parts
  {
    var s := Join(parts, [c]);
    assert parts[0] in parts;
    if |parts| == 1 {
      FindOne(s, c);
    } else {
      var rest := Join(parts[1..], [c]);
      SplitHead(parts[0], c, rest);
      assert s[..|parts[0]|] == parts[0] && s[|parts[0]| + 1..] == rest;
      SplitOfJoin(parts[1..], c);
    }
  }

  lemma {:induction false} ConcatUnfold<T>(s: seq<seq<T>>)
    requires s != []
    ensures Concat(s) == Concat(s[..|s| - 1]) + s[|s| - 1]
  {}

  lemma {:induction false} ConcatOne<T>(part: seq<T>)
    ensures Concat([part]) == part
  {
    assert [part][..0] == [];
  }

  lemma {:induction false} ConcatAppend<T>(a: seq<seq<T>>, b: seq<seq<T>>)
    ensures Concat(a + b) == Concat(a) + Concat(b)
  {
    if b == [] {
      assert a + b == a;
    } else {
      var n := |b| - 1;
      ConcatAppend(a, b[..n]);
      ConcatUnfold(a + b);
      assert (a + b)[..|a + b| - 1] == a + b[..n];
      assert (Concat(a) + Concat(b[..n])) + b[n] == Concat(a) + (Concat(b[..n]) + b[n]);
    }
  }
}
