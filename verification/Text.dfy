/** Strings as the gateway uses them: trimming, searching, ASCII case folding and the byte order
    that `sort.Strings` sorts by. A string is a sequence of characters; Unicode normalisation is not modelled. */
module Text {

  datatype Option<+T> = None | Some(value: T)

  datatype Result<+T, +E> = Ok(value: T) | Err(error: E)

  // ---------- trimming ----------

  /** The characters Go's `strings.TrimSpace` removes (the White_Space property). */
  predicate IsSpace(c: char) {
    || '\t' <= c <= '\r' || c == ' ' || c == '\U{85}' || c == '\U{A0}' || c == '\U{1680}'
    || '\U{2000}' <= c <= '\U{200A}' || c == '\U{2028}' || c == '\U{2029}' || c == '\U{202F}'
    || c == '\U{205F}' || c == '\U{3000}'
  }

  function TrimLeft(s: string): (r: string)
    ensures r != [] ==> !IsSpace(r[0])
    ensures |r| <= |s| && s[|s| - |r|..] == r
  {
    if s != [] && IsSpace(s[0]) then TrimLeft(s[1..]) else s
  }

  function TrimRight(s: string): (r: string)
    ensures r != [] ==> !IsSpace(r[|r| - 1])
    ensures r <= s
  {
    if s != [] && IsSpace(s[|s| - 1]) then TrimRight(s[..|s| - 1]) else s
  }

  /** Go's `strings.TrimSpace`. */
  function Trim(s: string): (r: string)
    ensures r != [] ==> !IsSpace(r[0]) && !IsSpace(r[|r| - 1])
  {
    TrimRight(TrimLeft(s))
  }

  lemma TrimIdempotent(s: string)
    ensures Trim(Trim(s)) == Trim(s)
  {
    var t := Trim(s);
    assert t != [] ==> TrimLeft(t) == t;
  }

  lemma TrimEmpty()
    ensures Trim("") == ""
  {
  }

  /** Nothing to trim. */
  lemma TrimNothing(s: string)
    requires s != "" && !IsSpace(s[0]) && !IsSpace(s[|s| - 1])
    ensures Trim(s) == s
  {
  }

  predicate Blank(s: string) {
    Trim(s) == ""
  }

  /** The characters of the Unicode property White_Space. */
  const WHITE_SPACE: set<char> := {
    '\t', '\n', '\U{B}', '\U{C}', '\r', ' ', '\U{85}', '\U{A0}', '\U{1680}', '\U{2000}', '\U{2001}', '\U{2002}',
    '\U{2003}', '\U{2004}', '\U{2005}', '\U{2006}', '\U{2007}', '\U{2008}', '\U{2009}', '\U{200A}', '\U{2028}',
    '\U{2029}', '\U{202F}', '\U{205F}', '\U{3000}'}

  lemma SpaceIs(c: char)
    ensures IsSpace(c) <==> c in WHITE_SPACE
  {
  }

  /** `t` stands in `s` at `i`, with only white space around it and none at its own ends. */
  ghost predicate TrimmedAt(s: string, i: int, t: string) {
    && t != "" && t[0] !in WHITE_SPACE && t[|t| - 1] !in WHITE_SPACE && 0 <= i <= |s| - |t| && s[i..i + |t|] == t
    && (forall k | 0 <= k < i :: s[k] in WHITE_SPACE) && (forall k | i + |t| <= k < |s| :: s[k] in WHITE_SPACE)
  }

  lemma {:induction false} LeftSpaces(s: string)
    ensures forall k | 0 <= k < |s| - |TrimLeft(s)| :: s[k] in WHITE_SPACE
  {
    hide WHITE_SPACE, IsSpace;
    if s != "" {
      SpaceIs(s[0]);
      if IsSpace(s[0]) {
        LeftSpaces(s[1..]);
        assert forall k | 1 <= k < |s| :: s[k] == s[1..][k - 1];
      }
    }
  }

  lemma {:induction false} RightSpaces(s: string)
    ensures forall k | |TrimRight(s)| <= k < |s| :: s[k] in WHITE_SPACE
  {
    hide WHITE_SPACE, IsSpace;
    if s != "" {
      SpaceIs(s[|s| - 1]);
      if IsSpace(s[|s| - 1]) {
        RightSpaces(s[..|s| - 1]);
      }
    }
  }

  /** What trimming leaves, told from the text: nothing exactly of a text that is all white space, and otherwise what
      stands between the white space at its two ends. */
  lemma TrimIs(s: string, t: string)
    ensures Trim(s) == "" <==> forall k | 0 <= k < |s| :: s[k] in WHITE_SPACE
    ensures t != "" ==> (Trim(s) == t <==> exists i :: TrimmedAt(s, i, t))
  {
    hide WHITE_SPACE, IsSpace, TrimLeft, TrimRight, TrimmedAt;
    TrimSurrounded(s);
    if t != "" && exists i :: TrimmedAt(s, i, t) {
      var i :| TrimmedAt(s, i, t);
      if Trim(s) == "" {
        TrimmedSolid(s, i, t);
        assert false;
      } else {
        var j :| TrimmedAt(s, j, Trim(s));
        TrimmedUnique(s, i, t, j, Trim(s));
      }
    }
    if Trim(s) != "" {
      var j :| TrimmedAt(s, j, Trim(s));
      TrimmedSolid(s, j, Trim(s));
    }
  }

  lemma TrimSurrounded(s: string)
    ensures Trim(s) == "" ==> forall k | 0 <= k < |s| :: s[k] in WHITE_SPACE
    ensures Trim(s) != "" ==> exists i :: TrimmedAt(s, i, Trim(s))
  {
    hide WHITE_SPACE, IsSpace, TrimLeft, TrimRight, TrimmedAt;
    var l := TrimLeft(s);
    var t := TrimRight(l);
    var i := |s| - |l|;
    LeftSpaces(s);
    RightSpaces(l);
    assert forall k | i <= k < |s| :: s[k] == l[k - i];
    if t != "" {
      SpaceIs(t[0]);
      SpaceIs(t[|t| - 1]);
      assert t == l[..|t|] == s[i..i + |t|];
      assert TrimmedAt(s, i, t) by { SurroundedAt(s, i, t); }
    }
  }

  lemma SurroundedAt(s: string, i: int, t: string)
    requires t != "" && t[0] !in WHITE_SPACE && t[|t| - 1] !in WHITE_SPACE && 0 <= i <= |s| - |t| && s[i..i + |t|] == t
    requires (forall k | 0 <= k < i :: s[k] in WHITE_SPACE) && forall k | i + |t| <= k < |s| :: s[k] in WHITE_SPACE
    ensures TrimmedAt(s, i, t)
  {
    hide WHITE_SPACE;
  }

  lemma TrimmedSolid(s: string, i: int, t: string)
    requires TrimmedAt(s, i, t)
    ensures exists k | 0 <= k < |s| :: s[k] !in WHITE_SPACE
  {
    hide WHITE_SPACE;
    assert s[i] == t[0];
  }

  lemma TrimmedUnique(s: string, i: int, t: string, j: int, u: string)
    requires TrimmedAt(s, i, t) && TrimmedAt(s, j, u)
    ensures i == j && t == u
  {
    hide WHITE_SPACE;
    assert t[0] == s[i] && u[0] == s[j] && t[|t| - 1] == s[i + |t| - 1] && u[|u| - 1] == s[j + |u| - 1];
    assert i == j && |t| == |u|;
  }

  // ---------- searching ----------

  /** `p` occurs in `s` starting at index `k`. */
  predicate OccursAt(s: string, k: nat, p: string) {
    k + |p| <= |s| && s[k..k + |p|] == p
  }

  /** Go's `strings.Contains`. */
  predicate Contains(s: string, p: string) {
    exists k | 0 <= k <= |s| :: OccursAt(s, k, p)
  }

  /** Index of the first `c` in `s`, or -1: Go's `strings.IndexByte`. */
  function IndexOf(s: string, c: char): (i: int)
    ensures i == -1 <==> c !in s
    ensures i != -1 ==> 0 <= i < |s| && s[i] == c && c !in s[..i]
  {
    if s == [] then -1
    else if s[0] == c then 0
    else
      var rest := IndexOf(s[1..], c);
      assert rest != -1 ==> s[..rest + 1] == [s[0]] + s[1..][..rest];
      if rest == -1 then -1 else rest + 1
  }

  // ---------- ASCII case ----------

  function LowerChar(c: char): char {
    if 'A' <= c <= 'Z' then (c as int + 32) as char else c
  }

  function UpperChar(c: char): char {
    if 'a' <= c <= 'z' then (c as int - 32) as char else c
  }

  /** Go's `strings.ToLower`, on ASCII letters. */
  function Lower(s: string): (r: string)
    ensures |r| == |s| && forall i | 0 <= i < |s| :: r[i] == LowerChar(s[i])
  {
    if s == [] then [] else [LowerChar(s[0])] + Lower(s[1..])
  }

  // ---------- the order of `sort.Strings` ----------

  /** `a` is before or equal to `b` in the order Go compares strings in. */
  predicate Leq(a: string, b: string) {
    a == [] || (b != [] && (a[0] < b[0] || (a[0] == b[0] && Leq(a[1..], b[1..]))))
  }

  lemma {:induction false} LeqTotal(a: string, b: string)
    ensures Leq(a, b) || Leq(b, a)
  {
    if a != [] && b != [] && a[0] == b[0] {
      LeqTotal(a[1..], b[1..]);
    }
  }

  lemma {:induction false} LeqAntisymmetric(a: string, b: string)
    requires Leq(a, b) && Leq(b, a)
    ensures a == b
  {
    if a != [] && b != [] {
      LeqAntisymmetric(a[1..], b[1..]);
      assert a == [a[0]] + a[1..] && b == [b[0]] + b[1..];
    }
  }

  lemma {:induction false} LeqTransitive(a: string, b: string, c: string)
    requires Leq(a, b) && Leq(b, c)
    ensures Leq(a, c)
  {
    if a != [] && a[0] == b[0] == c[0] {
      LeqTransitive(a[1..], b[1..], c[1..]);
    }
  }

  /** One text comes before another if and only if it is how the other begins, or has the smaller character where they
      first differ. */
  lemma {:induction false} LeqIs(a: string, b: string)
    ensures Leq(a, b) <==> a <= b || exists k | 0 <= k < |a| && k < |b| :: a[k] < b[k] && a[..k] == b[..k]
  {
    if a != [] && b != [] {
      var x, y := a[1..], b[1..];
      if a[0] == b[0] {
        LeqIs(x, y);
        assert a == [a[0]] + x && b == [b[0]] + y;
        if k :| 0 <= k < |x| && k < |y| && x[k] < y[k] && x[..k] == y[..k] {
          assert a[k + 1] < b[k + 1] && a[..k + 1] == [a[0]] + x[..k] == [b[0]] + y[..k] == b[..k + 1];
        }
        if k :| 0 <= k < |a| && k < |b| && a[k] < b[k] && a[..k] == b[..k] {
          assert x[k - 1] < y[k - 1] && x[..k - 1] == a[..k][1..] == b[..k][1..] == y[..k - 1];
        }
      } else if a[0] < b[0] {
        assert a[..0] == b[..0];
      } else {
        assert forall k | 0 < k < |a| && k < |b| :: a[..k][0] == a[0] && b[..k][0] == b[0];
      }
    }
  }

  ghost predicate Sorted(xs: seq<string>) {
    forall i, j | 0 <= i < j < |xs| :: Leq(xs[i], xs[j])
  }

  predicate Distinct<T(==)>(xs: seq<T>) {
    forall i, j | 0 <= i < j < |xs| :: xs[i] != xs[j]
  }

  function Elements<T>(xs: seq<T>): set<T> {
    set x | x in xs
  }

  function Insert(x: string, xs: seq<string>): (r: seq<string>)
    ensures multiset(r) == multiset{x} + multiset(xs)
    ensures Sorted(xs) ==> Sorted(r)
  {
    if xs == [] then [x]
    else if Leq(x, xs[0]) then
      assert Sorted(xs) ==> Sorted([x] + xs) by { InsertFront(x, xs); }
      [x] + xs
    else
      var rest := Insert(x, xs[1..]);
      assert xs == [xs[0]] + xs[1..];
      assert Sorted(xs) ==> Sorted([xs[0]] + rest) by { InsertLater(x, xs, rest); }
      [xs[0]] + rest
  }

  lemma InsertFront(x: string, xs: seq<string>)
    requires xs != [] && Leq(x, xs[0])
    ensures Sorted(xs) ==> Sorted([x] + xs)
  {
    if Sorted(xs) {
      forall j | 0 <= j < |xs| ensures Leq(x, xs[j]) {
        if j > 0 { LeqTransitive(x, xs[0], xs[j]); }
      }
    }
  }

  lemma InsertLater(x: string, xs: seq<string>, rest: seq<string>)
    requires xs != [] && !Leq(x, xs[0])
    requires multiset(rest) == multiset{x} + multiset(xs[1..])
    requires Sorted(xs[1..]) ==> Sorted(rest)
    ensures Sorted(xs) ==> Sorted([xs[0]] + rest)
  {
    if Sorted(xs) {
      LeqTotal(x, xs[0]);
      forall j | 0 <= j < |rest| ensures Leq(xs[0], rest[j]) {
        assert rest[j] in multiset(rest);
        if rest[j] != x {
          assert rest[j] in xs[1..];
        }
      }
    }
  }

  /** Go's `sort.Strings`, as insertion sort. */
  function Sort(xs: seq<string>): (r: seq<string>)
    ensures Sorted(r)
    ensures multiset(r) == multiset(xs)
    ensures |r| == |xs| && Elements(r) == Elements(xs)
  {
    if xs == [] then []
    else
      assert xs == [xs[0]] + xs[1..];
      var r := Insert(xs[0], Sort(xs[1..]));
      assert multiset(r) == multiset(xs);
      assert |r| == |multiset(r)| == |multiset(xs)| == |xs|;
      assert forall x :: x in r <==> x in multiset(r);
      assert forall x :: x in xs <==> x in multiset(xs);
      r
  }

  lemma SameHead(xs: seq<string>, ys: seq<string>)
    requires xs != [] && ys != [] && Sorted(xs) && Sorted(ys) && multiset(xs) == multiset(ys)
    ensures xs[0] == ys[0]
  {
    assert xs[0] in multiset(ys) && ys[0] in multiset(xs);
    if xs[0] != ys[0] {
      assert xs[0] in ys[1..] && ys[0] in xs[1..];
      LeqAntisymmetric(xs[0], ys[0]);
    }
  }

  lemma TailMultiset(xs: seq<string>)
    requires xs != []
    ensures multiset(xs[1..]) == multiset(xs) - multiset{xs[0]}
  {
    assert xs == [xs[0]] + xs[1..];
  }

  /** A sorted listing is fixed by what it lists: two sorted sequences with the same multiset are equal. */
  lemma {:induction false} SortedUnique(xs: seq<string>, ys: seq<string>)
    requires Sorted(xs) && Sorted(ys) && multiset(xs) == multiset(ys)
    ensures xs == ys
  {
    assert |xs| == |multiset(xs)| && |multiset(ys)| == |ys|;
    if xs != [] {
      SameHead(xs, ys);
      TailMultiset(xs);
      TailMultiset(ys);
      SortedUnique(xs[1..], ys[1..]);
      assert xs == [xs[0]] + xs[1..] && ys == [ys[0]] + ys[1..];
    }
  }

  lemma {:induction false} DistinctMultiset<T>(xs: seq<T>)
    requires Distinct(xs)
    ensures multiset(xs) == multiset(Elements(xs))
  {
    if xs != [] {
      var n := |xs| - 1;
      assert xs == xs[..n] + [xs[n]];
      DistinctMultiset(xs[..n]);
      assert Elements(xs) == Elements(xs[..n]) + {xs[n]};
    }
  }

  /** Sorting forgets the order a map was iterated in: any two duplicate-free listings of the
      same names sort to the same sequence. */
  lemma SortForgetsOrder(xs: seq<string>, ys: seq<string>)
    requires Distinct(xs) && Distinct(ys) && Elements(xs) == Elements(ys)
    ensures Sort(xs) == Sort(ys)
  {
    DistinctMultiset(xs);
    DistinctMultiset(ys);
    SortedUnique(Sort(xs), Sort(ys));
  }

  /** Sorting a duplicate-free listing leaves it duplicate-free. */
  lemma SortDistinct(xs: seq<string>)
    requires Distinct(xs)
    ensures Distinct(Sort(xs))
  {
    var r := Sort(xs);
    DistinctMultiset(xs);
    forall i, j | 0 <= i < j < |r| ensures r[i] != r[j] {
      assert r == r[..j] + r[j..];
      assert multiset(r) == multiset(r[..j]) + multiset(r[j..]);
      assert r[..j][i] == r[i] && r[j..][0] == r[j];
      assert multiset(r[..j])[r[i]] >= 1 && multiset(r[j..])[r[j]] >= 1;
      assert multiset(r)[r[i]] <= 1;
    }
  }

  // ---------- names of a map ----------

  /** `order` is one order in which a map with these keys can be iterated. */
  ghost predicate Listing<T(!new)>(order: seq<T>, keys: set<T>) {
    Distinct(order) && Elements(order) == keys
  }

  ghost function ListingOf<T(!new)>(keys: set<T>): (order: seq<T>)
    ensures Listing(order, keys)
  {
    if keys == {} then []
    else
      var x :| x in keys;
      var rest := ListingOf(keys - {x});
      assert x !in Elements(rest);
      assert Elements([x] + rest) == {x} + Elements(rest);
      [x] + rest
  }

  /** The names in the order of `sort.Strings`. */
  ghost function SortedNames(names: set<string>): (r: seq<string>)
    ensures Sorted(r) && Elements(r) == names
  {
    Sort(ListingOf(names))
  }

  /** However a map was iterated, its keys sort to the same sequence. */
  lemma SortedListing(order: seq<string>, names: set<string>)
    requires Listing(order, names)
    ensures Sort(order) == SortedNames(names)
  {
    SortForgetsOrder(order, ListingOf(names));
  }

  /** A set of names that is not empty has a first one. */
  lemma {:induction false} HasLeast(names: set<string>) returns (least: string)
    requires names != {}
    ensures least in names && forall x | x in names :: Leq(least, x)
  {
    var x :| x in names;
    var rest := names - {x};
    LeqTotal(x, x);
    if rest == {} {
      least := x;
      assert forall z | z in names :: z == x || z in rest;
    } else {
      var y := HasLeast(rest);
      LeqTotal(x, y);
      least := if Leq(x, y) then x else y;
      forall z | z in names ensures Leq(least, z) {
        assert z == x || z in rest;
        if z != x && least == x {
          LeqTransitive(x, y, z);
        }
      }
    }
  }

  /** The keys of a map, in whatever order it is iterated. */
  method CollectKeys(keys: set<string>) returns (order: seq<string>)
    ensures Listing(order, keys)
  {
    order := [];
    var rest := keys;
    while rest != {}
      invariant rest <= keys && Listing(order, keys - rest)
      decreases rest
    {
      var k :| k in rest;
      rest := rest - {k};
      assert k !in Elements(order);
      assert Elements(order + [k]) == Elements(order) + {k};
      order := order + [k];
    }
  }
}
