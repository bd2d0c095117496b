/** The stable sort behind every canonical ordering. Order independence of the
    builders rests on `PermutationSortsAlike`. */
module Sorting {
  import opened Common

  ghost predicate TotalPreorder<T(!new)>(le: (T, T) -> bool) {
    && (forall a, b :: le(a, b) || le(b, a))
    && (forall a, b, c :: le(a, b) && le(b, c) ==> le(a, c))
  }

  /** No two different elements of `s` tie. */
  ghost predicate TieFree<T>(le: (T, T) -> bool, s: seq<T>) {
    forall a, b | a in s && b in s && le(a, b) && le(b, a) :: a == b
  }

  ghost predicate Sorted<T>(le: (T, T) -> bool, s: seq<T>) {
    forall i, j | 0 <= i < j < |s| :: le(s[i], s[j])
  }

  function Insert<T>(le: (T, T) -> bool, x: T, s: seq<T>): (r: seq<T>)
    ensures multiset(r) == multiset{x} + multiset(s)
  {
    if s == [] then [x]
    else if le(x, s[0]) then
      assert multiset([x] + s) == multiset{x} + multiset(s);
      [x] + s
    else
      assert s == [s[0]] + s[1..];
      [s[0]] + Insert(le, x, s[1..])
  }

  function Sort<T>(le: (T, T) -> bool, s: seq<T>): (r: seq<T>)
    ensures multiset(r) == multiset(s)
    ensures |r| == |s|
  {
    if s == [] then []
    else
      assert s == [s[0]] + s[1..];
      var r := Insert(le, s[0], Sort(le, s[1..]));
      assert |multiset(r)| == |multiset(s)|;
      r
  }

  lemma SameElements<T>(s: seq<T>, t: seq<T>)
    requires multiset(s) == multiset(t)
    ensures |s| == |t|
    ensures forall x :: x in s <==> x in t
  {
    assert |multiset(s)| == |multiset(t)|;
    forall x ensures x in s <==> x in t {
      assert x in s <==> x in multiset(s);
      assert x in t <==> x in multiset(t);
    }
  }

  lemma {:induction false} InsertSorted<T(!new)>(le: (T, T) -> bool, x: T, s: seq<T>)
    requires TotalPreorder(le) && Sorted(le, s)
    ensures Sorted(le, Insert(le, x, s))
  {
    if s != [] && !le(x, s[0]) {
      InsertSorted(le, x, s[1..]);
      var r := Insert(le, x, s[1..]);
      forall y | y in r ensures le(s[0], y) {
        assert y in multiset(r);
        assert y == x || y in s[1..];
      }
    }
  }

  lemma {:induction false} SortSorted<T(!new)>(le: (T, T) -> bool, s: seq<T>)
    requires TotalPreorder(le)
    ensures Sorted(le, Sort(le, s))
  {
    if s != [] {
      SortSorted(le, s[1..]);
      InsertSorted(le, s[0], Sort(le, s[1..]));
    }
  }

  /** A sorted arrangement without ties is determined by its contents. */
  lemma {:induction false} SortedUnique<T(!new)>(le: (T, T) -> bool, s: seq<T>, t: seq<T>)
    requires Sorted(le, s) && Sorted(le, t) && multiset(s) == multiset(t)
    requires TieFree(le, s)
    ensures s == t
  {
    SameElements(s, t);
    if s != [] {
      HeadsAgree(le, s, t);
      TailsPermute(s, t);
      TailTieFree(le, s);
      SortedUnique(le, s[1..], t[1..]);
    }
  }

  lemma TailsPermute<T>(s: seq<T>, t: seq<T>)
    requires s != [] && t != [] && s[0] == t[0] && multiset(s) == multiset(t)
    ensures multiset(s[1..]) == multiset(t[1..])
  {
    assert s == [s[0]] + s[1..] && t == [t[0]] + t[1..];
    assert multiset(s[1..]) == multiset(s) - multiset{s[0]};
  }

  lemma TailTieFree<T>(le: (T, T) -> bool, s: seq<T>)
    requires s != [] && TieFree(le, s)
    ensures TieFree(le, s[1..])
  {
  }

  lemma HeadsAgree<T>(le: (T, T) -> bool, s: seq<T>, t: seq<T>)
    requires Sorted(le, s) && Sorted(le, t) && TieFree(le, s)
    requires s != [] && t != [] && s[0] in t && t[0] in s
    ensures s[0] == t[0]
  {
  }

  /** Sorting forgets the order of its input. */
  lemma PermutationSortsAlike<T(!new)>(le: (T, T) -> bool, s: seq<T>, t: seq<T>)
    requires TotalPreorder(le) && multiset(s) == multiset(t) && TieFree(le, s)
    ensures Sort(le, s) == Sort(le, t)
  {
    SortSorted(le, s);
    SortSorted(le, t);
    SameElements(s, Sort(le, s));
    SortedUnique(le, Sort(le, s), Sort(le, t));
  }

  /** A sorted input is left as it is. */
  lemma {:induction false} SortedIsFixed<T>(le: (T, T) -> bool, s: seq<T>)
    requires Sorted(le, s)
    ensures Sort(le, s) == s
  {
    if s != [] {
      SortedIsFixed(le, s[1..]);
      assert s == [s[0]] + s[1..];
    }
  }

  /** Distinctness survives a rearrangement. */
  lemma {:induction false} DistinctPermutes<T>(s: seq<T>, t: seq<T>)
    requires multiset(s) == multiset(t) && Distinct(s)
    ensures Distinct(t)
  {
    forall i, j | 0 <= i < j < |t| ensures t[i] != t[j] {
      if t[i] == t[j] {
        assert t == t[..i] + [t[i]] + t[i + 1..j] + [t[j]] + t[j + 1..];
        assert multiset(t)[t[i]] >= 2;
        AtMostOnce(s, t[i]);
      }
    }
  }

  lemma {:induction false} AtMostOnce<T>(s: seq<T>, x: T)
    requires Distinct(s)
    ensures multiset(s)[x] <= 1
  {
    if s != [] {
      AtMostOnce(s[1..], x);
      assert s == [s[0]] + s[1..];
      if x == s[0] {
        assert x !in s[1..];
        assert x !in multiset(s[1..]);
      }
    }
  }

  /** Sequences without repetitions and with the same members are rearrangements. */
  lemma SameMembersPermute<T>(s: seq<T>, t: seq<T>)
    requires Distinct(s) && Distinct(t)
    requires forall x :: x in s <==> x in t
    ensures multiset(s) == multiset(t)
  {
    forall x ensures multiset(s)[x] == multiset(t)[x] {
      AtMostOnce(s, x);
      AtMostOnce(t, x);
      assert x in s <==> x in multiset(s);
      assert x in t <==> x in multiset(t);
    }
  }

  /** Distinct identities stay distinct when what they identify is rearranged. */
  lemma {:induction false} DistinctImagesPermute<T, K>(f: T -> K, s: seq<T>, t: seq<T>)
    requires multiset(s) == multiset(t) && Distinct(MapSeq(f, s))
    ensures Distinct(MapSeq(f, t))
  {
    assert Distinct(s) by {
      forall i, j | 0 <= i < j < |s| ensures s[i] != s[j] {
        assert MapSeq(f, s)[i] != MapSeq(f, s)[j];
      }
    }
    DistinctPermutes(s, t);
    SameElements(s, t);
    var a, b := MapSeq(f, s), MapSeq(f, t);
    forall i, j | 0 <= i < j < |t| ensures b[i] != b[j] {
      assert t[i] in s && t[j] in s;
      var k :| 0 <= k < |s| && s[k] == t[i];
      var l :| 0 <= l < |s| && s[l] == t[j];
      assert a[k] != a[l];
    }
  }

  /** Distinct members of a sequence are at most as many as its elements. */
  lemma {:induction false} DistinctSubsetIsShorter<T>(s: seq<T>, t: seq<T>)
    requires Distinct(s) && forall x | x in s :: x in t
    ensures |s| <= |t|
  {
    if s != [] {
      var x := s[|s| - 1];
      assert x in t;
      var k :| 0 <= k < |t| && t[k] == x;
      var rest := t[..k] + t[k + 1..];
      forall y | y in s[..|s| - 1] ensures y in rest {
        assert y in s && y != x;
        var l :| 0 <= l < |t| && t[l] == y;
        assert rest[if l < k then l else l - 1] == y;
      }
      DistinctSubsetIsShorter(s[..|s| - 1], rest);
    }
  }

  /** The members of a sequence, each once. */
  function Uniques<T(==, !new)>(s: seq<T>): (r: seq<T>)
    ensures Distinct(r) && forall x :: x in r <==> x in s
    ensures |r| <= |s|
  {
    if s == [] then []
    else
      var n := |s| - 1;
      var r := Uniques(s[..n]);
      assert s == s[..n] + [s[n]];
      if s[n] in r then r else r + [s[n]]
  }

  predicate IdLe(a: Id, b: Id) {
    a <= b
  }

  /** The form every identity tuple must have: sorted and free of repetitions. */
  predicate CanonicalIds(ids: seq<Id>) {
    forall i, j | 0 <= i < j < |ids| :: ids[i] < ids[j]
  }

  lemma SortedDistinctIdsAreCanonical(ids: seq<Id>)
    requires Distinct(ids)
    ensures CanonicalIds(Sort(IdLe, ids))
  {
    SortSorted(IdLe, ids);
    DistinctPermutes(ids, Sort(IdLe, ids));
    var r := Sort(IdLe, ids);
    forall i, j | 0 <= i < j < |r| ensures r[i] < r[j] {
      assert IdLe(r[i], r[j]);
    }
  }

  /** A set of identities as a tuple. */
  function IdTuple(ids: seq<Id>): (r: seq<Id>) {
    Sort(IdLe, Uniques(ids))
  }

  lemma IdTupleIsCanonical(ids: seq<Id>)
    ensures CanonicalIds(IdTuple(ids))
    ensures forall x :: x in IdTuple(ids) <==> x in ids
  {
    SortedDistinctIdsAreCanonical(Uniques(ids));
    SameElements(Uniques(ids), IdTuple(ids));
  }

  /** Sorting items by identity puts their identities in canonical form, if they are distinct. */
  lemma SortedByIdIsCanonical<T(!new)>(id: T -> Id, le: (T, T) -> bool, s: seq<T>)
    requires forall a, b :: le(a, b) <==> id(a) <= id(b)
    ensures var ids, sorted := MapSeq(id, s), MapSeq(id, Sort(le, s));
            && (Distinct(ids) <==> Distinct(sorted))
            && (Distinct(ids) ==> CanonicalIds(sorted))
            && (forall x :: x in ids <==> x in sorted)
  {
    assert TotalPreorder(le) by {
      forall a, b, c | le(a, b) && le(b, c) ensures le(a, c) {
        assert id(a) <= id(b) <= id(c);
      }
    }
    var t := Sort(le, s);
    hide Sort, TotalPreorder, Sorted, Distinct, CanonicalIds;
    SameElements(s, t);
    SortSorted(le, s);
    if Distinct(MapSeq(id, s)) {
      DistinctImagesPermute(id, s, t);
      SortedIdsAscend(id, le, t);
    }
    if Distinct(MapSeq(id, t)) {
      DistinctImagesPermute(id, t, s);
    }
    ImagesAgree(id, s, t);
    ImagesAgree(id, t, s);
  }

  lemma SortedIdsAscend<T(!new)>(id: T -> Id, le: (T, T) -> bool, t: seq<T>)
    requires forall a, b :: le(a, b) <==> id(a) <= id(b)
    requires Sorted(le, t) && Distinct(MapSeq(id, t))
    ensures CanonicalIds(MapSeq(id, t))
  {
    var ids := MapSeq(id, t);
    forall i, j | 0 <= i < j < |ids| ensures ids[i] < ids[j] {
      assert le(t[i], t[j]) && ids[i] != ids[j];
    }
  }

  lemma ImagesAgree<T, K>(f: T -> K, s: seq<T>, t: seq<T>)
    requires forall x | x in s :: x in t
    ensures forall y | y in MapSeq(f, s) :: y in MapSeq(f, t)
  {
    forall y | y in MapSeq(f, s) ensures y in MapSeq(f, t) {
      var i :| 0 <= i < |s| && MapSeq(f, s)[i] == y;
      assert s[i] in t;
      var j :| 0 <= j < |t| && t[j] == s[i];
      assert MapSeq(f, t)[j] == y;
    }
  }

  /** Two canonical tuples over the same identities are the same tuple. */
  lemma {:induction false} CanonicalIdsDetermined(s: seq<Id>, t: seq<Id>)
    requires CanonicalIds(s) && CanonicalIds(t) && Elements(s) == Elements(t)
    ensures s == t
  {
    assert s != [] ==> s[0] in Elements(s) && s[0] in Elements(t);
    assert t != [] ==> t[0] in Elements(t) && t[0] in Elements(s);
    if s != [] && t != [] {
      assert s[0] == t[0];
      forall x ensures x in Elements(s[1..]) <==> x in Elements(t[1..]) {
        assert x in Elements(s[1..]) <==> x in Elements(s) && x != s[0];
        assert x in Elements(t[1..]) <==> x in Elements(t) && x != t[0];
      }
      CanonicalIdsDetermined(s[1..], t[1..]);
    }
  }

  // ---- text

  /** The lexicographic order in which text is compared. */
  predicate StringLe(a: string, b: string) {
    a == "" || (b != "" && (a[0] < b[0] || (a[0] == b[0] && StringLe(a[1..], b[1..]))))
  }

  lemma {:induction false} StringLeTotal(a: string, b: string)
    ensures StringLe(a, b) || StringLe(b, a)
  {
    if a != "" && b != "" && a[0] == b[0] {
      StringLeTotal(a[1..], b[1..]);
    }
  }

  lemma {:induction false} StringLeAntisymmetric(a: string, b: string)
    requires StringLe(a, b) && StringLe(b, a)
    ensures a == b
  {
    if a != "" && b != "" {
      StringLeAntisymmetric(a[1..], b[1..]);
      assert a == [a[0]] + a[1..] && b == [b[0]] + b[1..];
    }
  }

  lemma {:induction false} StringLeTransitive(a: string, b: string, c: string)
    requires StringLe(a, b) && StringLe(b, c)
    ensures StringLe(a, c)
  {
    if a != "" && a[0] == b[0] == c[0] {
      StringLeTransitive(a[1..], b[1..], c[1..]);
    }
  }

  /** The first difference decides. */
  lemma {:induction false} FirstDifference(a: string, b: string, k: nat)
    requires k < |a| && k < |b| && a[..k] == b[..k] && a[k] < b[k]
    ensures StringLe(a, b) && !StringLe(b, a)
  {
    if k > 0 {
      assert a[0] == a[..k][0] == b[0];
      assert a[1..][..k - 1] == a[..k][1..] == b[1..][..k - 1];
      FirstDifference(a[1..], b[1..], k - 1);
    }
  }

  /** Text order is total, and different texts never tie. */
  lemma StringOrder()
    ensures TotalPreorder(StringLe)
    ensures forall a, b | StringLe(a, b) && StringLe(b, a) :: a == b
  {
    forall a, b ensures StringLe(a, b) || StringLe(b, a) {
      StringLeTotal(a, b);
    }
    forall a, b, c | StringLe(a, b) && StringLe(b, c) ensures StringLe(a, c) {
      StringLeTransitive(a, b, c);
    }
    forall a, b | StringLe(a, b) && StringLe(b, a) ensures a == b {
      StringLeAntisymmetric(a, b);
    }
  }

  /** Below the given character two texts agree, and there the second is larger. */
  predicate AscendsAt(a: string, b: string, at: nat) {
    at < |a| && at < |b| && a[..at] == b[..at] && a[at] < b[at]
  }

  lemma {:induction false} AscendingTexts(ss: seq<string>, i: nat, j: nat)
    requires forall k | 0 < k < |ss| :: StringLe(ss[k - 1], ss[k]) && !StringLe(ss[k], ss[k - 1])
    requires i < j < |ss|
    ensures StringLe(ss[i], ss[j]) && !StringLe(ss[j], ss[i])
    decreases j
  {
    if i < j - 1 {
      AscendingTexts(ss, i, j - 1);
      StringOrder();
      assert StringLe(ss[j - 1], ss[j]);
    }
  }

  /** Texts listed in ascending order compare as their positions do. */
  lemma PositionsFollowTexts(ss: seq<string>, ats: seq<nat>, i: nat, j: nat)
    requires |ats| == |ss| && forall k | 0 < k < |ss| :: AscendsAt(ss[k - 1], ss[k], ats[k])
    requires i < |ss| && j < |ss|
    ensures StringLe(ss[i], ss[j]) <==> i <= j
  {
    forall k | 0 < k < |ss| ensures StringLe(ss[k - 1], ss[k]) && !StringLe(ss[k], ss[k - 1]) {
      FirstDifference(ss[k - 1], ss[k], ats[k]);
    }
    if i < j {
      AscendingTexts(ss, i, j);
    } else if j < i {
      AscendingTexts(ss, j, i);
    } else {
      StringOrder();
    }
  }

  /** Sorting makes a tuple canonical exactly when nothing is repeated. */
  lemma SortedIdsAre(ids: seq<Id>)
    ensures |Sort(IdLe, ids)| == |ids| && multiset(Sort(IdLe, ids)) == multiset(ids)
    ensures CanonicalIds(Sort(IdLe, ids)) <==> Distinct(ids)
  {
    var self := (id: Id) => id;
    SortedByIdIsCanonical(self, IdLe, ids);
    assert forall s :: MapSeq(self, s) == s;
    if CanonicalIds(Sort(IdLe, ids)) {
      assert Distinct(Sort(IdLe, ids));
      DistinctPermutes(Sort(IdLe, ids), ids);
    }
  }

  /** A set of identities as a tuple is no longer than the list it came from. */
  lemma IdTupleFits(ids: seq<Id>)
    ensures CanonicalIds(IdTuple(ids))
    ensures |IdTuple(ids)| <= |ids| && (ids != [] ==> IdTuple(ids) != [])
  {
    IdTupleIsCanonical(ids);
    if ids != [] {
      hide IdTuple;
      var x := ids[0];
      assert x in ids;
      assert x in IdTuple(ids);
    }
  }

  /** Text in canonical form: ascending and free of repetitions. */
  predicate CanonicalText(ss: seq<string>) {
    forall i, j | 0 <= i < j < |ss| :: StringLe(ss[i], ss[j]) && ss[i] != ss[j]
  }

  function TextTuple(ss: seq<string>): (r: seq<string>) {
    Sort(StringLe, Uniques(ss))
  }

  lemma TextTupleIsCanonical(ss: seq<string>)
    ensures CanonicalText(TextTuple(ss))
    ensures forall x :: x in TextTuple(ss) <==> x in ss
  {
    var r := TextTuple(ss);
    StringOrder();
    SortSorted(StringLe, Uniques(ss));
    DistinctPermutes(Uniques(ss), r);
    SameElements(Uniques(ss), r);
  }

  lemma SortedTextsAre(ss: seq<string>)
    ensures |Sort(StringLe, ss)| == |ss|
    ensures CanonicalText(Sort(StringLe, ss)) <==> Distinct(ss)
  {
    StringOrder();
    SortSorted(StringLe, ss);
    if Distinct(ss) {
      DistinctPermutes(ss, Sort(StringLe, ss));
    }
    if CanonicalText(Sort(StringLe, ss)) {
      assert Distinct(Sort(StringLe, ss));
      DistinctPermutes(Sort(StringLe, ss), ss);
    }
  }

  lemma TextTupleFits(ss: seq<string>)
    ensures CanonicalText(TextTuple(ss)) && |TextTuple(ss)| <= |ss|
  {
    TextTupleIsCanonical(ss);
  }
}
