/** Shared by the parsers and the list builders. */
module Common {

  type Byte = b: int | 0 <= b < 256

  datatype Option<+T> = None | Some(value: T)

  /** At most the first `n` elements. */
  function Take<T>(s: seq<T>, n: nat): (r: seq<T>)
    ensures r <= s && |r| == if |s| <= n then |s| else n
  {
    if |s| <= n then s else s[..n]
  }

  /** `code` sits at `offset`. */
  predicate At<T(==)>(data: seq<T>, offset: nat, code: seq<T>) {
    offset + |code| <= |data| && data[offset..offset + |code|] == code
  }

  lemma AtSplit<T>(data: seq<T>, offset: nat, a: seq<T>, b: seq<T>)
    ensures At(data, offset, a + b) <==> At(data, offset, a) && At(data, offset + |a|, b)
  {
    if At(data, offset, a + b) {
      var d := data[offset..offset + |a + b|];
      assert d[..|a|] == a && d[|a|..] == b;
      assert data[offset..offset + |a|] == d[..|a|];
      assert data[offset + |a|..offset + |a| + |b|] == d[|a|..];
    }
    if At(data, offset, a) && At(data, offset + |a|, b) {
      assert data[offset..offset + |a + b|] == data[offset..offset + |a|] + data[offset + |a|..offset + |a| + |b|];
    }
  }

  lemma ConcatAssociates<T>(a: seq<T>, b: seq<T>, c: seq<T>)
    ensures a + (b + c) == a + b + c
  {}

  function Filter<T>(s: seq<T>, keep: T -> bool): seq<T> {
    if s == [] then [] else
      Filter(s[..|s| - 1], keep) + if keep(s[|s| - 1]) then [s[|s| - 1]] else []
  }

  /** `r` consists of the elements of `s` that satisfy `keep`, all of them and in their order: they
      stand at the positions `pos`. */
  ghost predicate Picks<T>(r: seq<T>, s: seq<T>, keep: T -> bool, pos: seq<nat>) {
    && |pos| == |r|
    && (forall k :: 0 <= k < |pos| ==> pos[k] < |s| && r[k] == s[pos[k]] && keep(s[pos[k]]))
    && (forall k, m :: 0 <= k < m < |pos| ==> pos[k] < pos[m])
    && (forall i :: 0 <= i < |s| && keep(s[i]) ==> i in pos)
  }

  lemma PicksLast<T>(r: seq<T>, s: seq<T>, keep: T -> bool, pos: seq<nat>, x: T) returns (more: seq<nat>)
    requires Picks(r, s, keep, pos)
    ensures Picks(r + if keep(x) then [x] else [], s + [x], keep, more)
  {
    more := pos + if keep(x) then [|s|] else [];
    var all := s + [x];
    forall i | 0 <= i < |all| && keep(all[i]) ensures i in more {
      if i == |s| { assert more[|pos|] == |s|; } else { assert i in pos; }
    }
  }

  lemma {:induction false} FilterPicks<T>(s: seq<T>, keep: T -> bool) returns (pos: seq<nat>)
    ensures Picks(Filter(s, keep), s, keep, pos)
  {
    if s == [] {
      pos := [];
    } else {
      var n := |s| - 1;
      pos := FilterPicks(s[..n], keep);
      pos := PicksLast(Filter(s[..n], keep), s[..n], keep, pos, s[n]);
      assert s == s[..n] + [s[n]];
    }
  }

  /** Filtering from the front is the same. */
  lemma {:induction false} FilterFirst<T>(x: T, s: seq<T>, keep: T -> bool)
    ensures Filter([x] + s, keep) == (if keep(x) then [x] else []) + Filter(s, keep)
    decreases |s|
  {
    if s == [] {
      assert [x] + s == [x] && [x][..0] == [];
    } else {
      var n := |s| - 1;
      FilterFirst(x, s[..n], keep);
      FilterLast(s[..n], s[n], keep);
      FilterLast([x] + s[..n], s[n], keep);
      assert s == s[..n] + [s[n]] && [x] + s == [x] + s[..n] + [s[n]];
      ConcatAssociates(if keep(x) then [x] else [], Filter(s[..n], keep), if keep(s[n]) then [s[n]] else []);
    }
  }

  lemma FilterLast<T>(s: seq<T>, x: T, keep: T -> bool)
    ensures Filter(s + [x], keep) == Filter(s, keep) + if keep(x) then [x] else []
  {
    assert (s + [x])[..|s|] == s;
  }

  /** Python's `<` on strings. */
  predicate StringLess(a: string, b: string) {
    b != [] && (a == [] || a[0] < b[0] || (a[0] == b[0] && StringLess(a[1..], b[1..])))
  }

  /** Either a proper prefix, or smaller at the first difference. */
  lemma {:induction false} StringLessExactly(a: string, b: string)
    ensures StringLess(a, b) <==> a < b || exists k :: SmallerAt(a, b, k)
  {
    if a != [] && b != [] && a[0] == b[0] {
      StringLessExactly(a[1..], b[1..]);
      assert a == [a[0]] + a[1..] && b == [b[0]] + b[1..];
      SmallerBehind(a, b);
    } else if a != [] && b != [] && a[0] < b[0] {
      assert SmallerAt(a, b, 0);
    }
  }

  lemma SmallerBehind(a: string, b: string)
    requires a != [] && b != [] && a[0] == b[0]
    ensures (exists k :: SmallerAt(a, b, k)) <==> (exists k :: SmallerAt(a[1..], b[1..], k))
  {
    if k :| SmallerAt(a[1..], b[1..], k) {
      assert a[..k + 1] == [a[0]] + a[1..][..k] && b[..k + 1] == [b[0]] + b[1..][..k];
      assert SmallerAt(a, b, k + 1);
    }
    if k :| SmallerAt(a, b, k) {
      assert a[1..][..k - 1] == a[..k][1..] && b[1..][..k - 1] == b[..k][1..];
      assert SmallerAt(a[1..], b[1..], k - 1);
    }
  }

  predicate SmallerAt(a: string, b: string, k: int) {
    0 <= k < |a| && k < |b| && a[..k] == b[..k] && a[k] < b[k]
  }

  lemma {:induction false} StringLessTransitive(a: string, b: string, c: string)
    requires StringLess(a, b) && StringLess(b, c)
    ensures StringLess(a, c)
  {
    if a != [] && a[0] == b[0] == c[0] {
      StringLessTransitive(a[1..], b[1..], c[1..]);
    }
  }

  lemma {:induction false} StringLessTotal(a: string, b: string)
    ensures a == b || StringLess(a, b) || StringLess(b, a)
    ensures !(StringLess(a, b) && StringLess(b, a)) && !StringLess(a, a)
  {
    if a != [] && b != [] && a[0] == b[0] {
      StringLessTotal(a[1..], b[1..]);
      assert a == [a[0]] + a[1..] && b == [b[0]] + b[1..];
    }
    if a != [] { StringLessTotal(a[1..], a[1..]); }
  }

  /** A common beginning does not matter. */
  lemma {:induction false} StringLessBehind(p: string, a: string, b: string)
    ensures StringLess(p + a, p + b) <==> StringLess(a, b)
  {
    if p == [] {
      assert p + a == a && p + b == b;
    } else {
      assert (p + a)[1..] == p[1..] + a && (p + b)[1..] == p[1..] + b;
      StringLessBehind(p[1..], a, b);
    }
  }
}
