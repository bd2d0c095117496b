/** Values shared by every component: optional and fallible results, and the
    confidentiality order that all the services compare against. */
module Common {

  datatype Option<+T> = None | Some(value: T)

  datatype Result<+T, +E> = Ok(value: T) | Err(error: E)

  /** A check that either passes or raises. */
  datatype Outcome<+E> = Pass | Fail(error: E) {

    /** A further check, made only when all the earlier ones passed. */
    function Check(holds: bool, otherwise: E): Outcome<E> {
      if Fail? || holds then this else Fail(otherwise)
    }
  }

  /** Identities are UUIDs. The textual order of UUIDs is their numeric order, so
      sorting by text is sorting by number. */
  type Id = int

  datatype Classification = Public | Internal | Confidential | Restricted

  function Rank(c: Classification): nat {
    match c
    case Public => 0
    case Internal => 1
    case Confidential => 2
    case Restricted => 3
  }

  /** A classification may be raised above its source but never lowered below it. */
  predicate NotLower(child: Classification, parent: Classification) {
    Rank(parent) <= Rank(child)
  }

  function Max(a: int, b: int): int {
    if a < b then b else a
  }

  function Min(a: int, b: int): int {
    if a < b then a else b
  }

  predicate Distinct<T(==)>(s: seq<T>) {
    forall i, j | 0 <= i < j < |s| :: s[i] != s[j]
  }

  function Elements<T(==)>(s: seq<T>): (r: set<T>) {
    set x | x in s
  }

  function MapSeq<A, B>(f: A -> B, s: seq<A>): (r: seq<B>)
    ensures |r| == |s|
    ensures forall i | 0 <= i < |s| :: r[i] == f(s[i])
  {
    seq(|s|, i requires 0 <= i < |s| => f(s[i]))
  }

  /** The first row that satisfies a filter, as a `LIMIT 1` lookup returns it. */
  function FirstIndex<T>(s: seq<T>, p: T -> bool): (r: Option<nat>)
    ensures r.Some? ==> r.value < |s| && p(s[r.value]) && forall i | 0 <= i < r.value :: !p(s[i])
    ensures r.None? ==> forall x | x in s :: !p(x)
  {
    if s == [] then None
    else if p(s[0]) then Some(0)
    else
      match FirstIndex(s[1..], p)
      case None => None
      case Some(i) =>
        assert forall j | 0 < j < i + 1 :: s[j] == s[1..][j - 1];
        Some(i + 1)
  }

  predicate Injective<A(==), B(==)>(m: map<A, B>) {
    forall x, y | x in m && y in m && m[x] == m[y] :: x == y
  }

  function ValuesOf<A, B(!new)>(m: map<A, B>): (r: set<B>)
    ensures forall y :: y in r <==> exists x :: x in m && m[x] == y
  {
    set x | x in m :: m[x]
  }

  lemma SubsetIsSmaller<T>(a: set<T>, b: set<T>)
    requires a <= b
    ensures |a| <= |b|
    ensures |a| == |b| ==> a == b
  {
    assert b == a + (b - a);
  }

  /** A map has at most as many values as keys, and as many exactly when it is injective. */
  lemma {:induction false} ValuesSizeIff<A, B(!new)>(m: map<A, B>)
    ensures |ValuesOf(m)| <= |m.Keys|
    ensures |ValuesOf(m)| == |m.Keys| <==> Injective(m)
    decreases |m.Keys|
  {
    if m.Keys == {} {
      assert ValuesOf(m) == {};
    } else {
      var x :| x in m.Keys;
      var rest := m - {x};
      assert rest.Keys == m.Keys - {x};
      ValuesSizeIff(rest);
      ValuesSplit(m, x);
      if m[x] in ValuesOf(rest) {
        var y :| y in rest && rest[y] == m[x];
        assert x in m && y in m && m[x] == m[y];
      } else {
        forall y, z | y in m && z in m && m[y] == m[z] && Injective(rest) ensures y == z {
          assert y != x ==> rest[y] in ValuesOf(rest);
          assert z != x ==> rest[z] in ValuesOf(rest);
        }
        assert Injective(m) ==> Injective(rest) by {
          assert forall y | y in rest :: rest[y] == m[y];
        }
      }
    }
  }

  lemma KeyOfValue<A, B(!new)>(m: map<A, B>, y: B) returns (x: A)
    requires y in ValuesOf(m)
    ensures x in m && m[x] == y
  {
    x :| x in m && m[x] == y;
  }

  lemma ValuesSplit<A, B(!new)>(m: map<A, B>, x: A)
    requires x in m
    ensures ValuesOf(m) == ValuesOf(m - {x}) + {m[x]}
  {
    var rest := m - {x};
    forall y ensures y in ValuesOf(m) <==> y in ValuesOf(rest) || y == m[x] {
      if y in ValuesOf(m) {
        var z :| z in m && m[z] == y;
        assert z != x ==> z in rest && rest[z] == y;
      }
      if y in ValuesOf(rest) {
        var z :| z in rest && rest[z] == y;
        assert z in m && m[z] == y;
      }
    }
  }
}
