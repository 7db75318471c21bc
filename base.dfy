/** Shared vocabulary: the optional value, the screen-edge constants of the
    package, Python's exceptions as values, and the Python list and number
    operations the other modules rely on. */
module Base {

  datatype Option<T> = None | Some(value: T)

  datatype Result<T> = Success(value: T) | Failure(error: PyError)

  /** The Python exceptions the modelled code can raise. */
  datatype PyError = TypeError | AssertionError | NameError | IndexError | KeyError | ValueError | AttributeError

  // Screen edges, as the package defines them (0 means "no edge").
  const LEFT := 1
  const RIGHT := 2
  const TOP := 3
  const BOTTOM := 4

  predicate IsEdge(e: int) {
    e == 0 || e == LEFT || e == RIGHT || e == TOP || e == BOTTOM
  }

  /** Index of the first occurrence of `x`, as Python's `list.index`. */
  function IndexOf<T(==)>(s: seq<T>, x: T): (k: nat)
    requires x in s
    ensures k < |s| && s[k] == x && x !in s[..k]
  {
    if s[0] == x then 0 else 1 + IndexOf(s[1..], x)
  }

  /** Python's `list.remove(x)`: deletes the first occurrence of `x`. */
  function RemoveFirst<T(==)>(s: seq<T>, x: T): (r: seq<T>)
    requires x in s
    ensures |r| == |s| - 1
    ensures multiset(r) == multiset(s) - multiset{x}
  {
    var k := IndexOf(s, x);
    assert s == s[..k] + [x] + s[k+1..];
    s[..k] + s[k+1..]
  }

  /** Where Python's `list.insert(i, x)` puts `x` in a list of length `n`. */
  function InsertIndex(n: nat, i: int): (k: nat)
    ensures k <= n
    ensures 0 <= i <= n ==> k == i
    ensures i > n ==> k == n
    ensures i < 0 ==> k == if n + i < 0 then 0 else n + i
  {
    if i < 0 then (if n + i < 0 then 0 else n + i)
    else if i > n then n
    else i
  }

  /** Python's `list.insert(i, x)`. */
  function Insert<T>(s: seq<T>, i: int, x: T): (r: seq<T>)
    ensures |r| == |s| + 1
    ensures r[InsertIndex(|s|, i)] == x
    ensures multiset(r) == multiset(s) + multiset{x}
  {
    var k := InsertIndex(|s|, i);
    assert s == s[..k] + s[k..];
    s[..k] + [x] + s[k..]
  }

  /** `remove(x)` followed by `insert(position, x)`, as both reorder operations do. */
  function MoveTo<T(==)>(s: seq<T>, x: T, position: int): seq<T>
    requires x in s
  {
    Insert(RemoveFirst(s, x), position, x)
  }

  /** Moving an element to an index inside the list puts it exactly there, keeps
      the multiset of elements, and leaves the other elements in their order. */
  lemma MoveToPlaces<T>(s: seq<T>, x: T, position: int)
    requires x in s && 0 <= position < |s|
    ensures var r := MoveTo(s, x, position);
      && |r| == |s|
      && r[position] == x
      && multiset(r) == multiset(s)
      && r[..position] + r[position+1..] == RemoveFirst(s, x)
  {
    var rest := RemoveFirst(s, x);
    assert InsertIndex(|rest|, position) == position;
    var r := MoveTo(s, x, position);
    assert r == rest[..position] + [x] + rest[position..];
    assert r[..position] == rest[..position];
    assert r[position+1..] == rest[position..];
    assert rest[..position] + rest[position..] == rest;
  }

  /** No element occurs twice. */
  predicate Distinct<T(==)>(s: seq<T>) {
    forall i, j | 0 <= i < j < |s| :: s[i] != s[j]
  }

  /** Python's `int(x)`: truncation toward zero. */
  function Trunc(x: real): (n: int)
    ensures x >= 0.0 ==> n as real <= x < n as real + 1.0
    ensures x < 0.0 ==> n as real - 1.0 < x <= n as real
  {
    if x >= 0.0 then x.Floor else -((-x).Floor)
  }

  /** The number a string of decimal digits denotes, most significant
      digit first. */
  function DigitsValue(s: string): int
  {
    if s == [] then 0
    else 10 * DigitsValue(s[..|s| - 1]) + (s[|s| - 1] as int - '0' as int)
  }

  /** The digit character of a value below ten. */
  function DigitChar(k: nat): (c: char)
    requires k < 10
    ensures '0' <= c <= '9' && c as int - '0' as int == k
  {
    ('0' as int + k) as char
  }

  /** Decimal digits of a natural number, as Python's `"%d"`: digits only,
      no leading zero, and they denote `n`. */
  function DecimalString(n: nat): (s: string)
    ensures |s| >= 1
    ensures forall c | c in s :: '0' <= c <= '9'
    ensures DigitsValue(s) == n
    ensures n > 0 ==> s[0] != '0'
  {
    if n < 10 then [DigitChar(n)]
    else
      var s := DecimalString(n / 10) + [DigitChar(n % 10)];
      assert s[..|s| - 1] == DecimalString(n / 10);
      s
  }

  /** The first present value of a list of optional values, as a loop that
      returns the first non-`None` result does. */
  function FirstSome<T>(s: seq<Option<T>>): (r: Option<T>)
    ensures r.None? <==> forall i | 0 <= i < |s| :: s[i].None?
    ensures r.Some? ==> exists i | 0 <= i < |s| :: s[i] == r && forall j | 0 <= j < i :: s[j].None?
  {
    if s == [] then None
    else if s[0].Some? then s[0]
    else
      var r := FirstSome(s[1..]);
      assert r.Some? ==> exists i | 0 <= i < |s[1..]| :: s[1..][i] == r && forall j | 0 <= j < i :: s[1..][j].None?;
      assert r.Some? ==> exists i | 0 <= i < |s| :: s[i] == r && forall j | 0 <= j < i :: s[j].None? by {
        if r.Some? {
          var i :| 0 <= i < |s[1..]| && s[1..][i] == r && forall j | 0 <= j < i :: s[1..][j].None?;
          assert s[i+1] == r;
        }
      }
      r
  }

  /** A list with one more element at the end has the same first present
      value, unless none was present before. */
  lemma {:induction false} FirstSomeAppend<T>(s: seq<Option<T>>, x: Option<T>)
    ensures FirstSome(s + [x]) == if FirstSome(s).Some? then FirstSome(s) else x
  {
    if s != [] {
      assert (s + [x])[1..] == s[1..] + [x];
      FirstSomeAppend(s[1..], x);
    } else {
      assert s + [x] == [x];
    }
  }

  /** Removing an element that does not occur before a given position
      deletes it at that position. */
  lemma RemoveFirstAt<T>(a: seq<T>, x: T, b: seq<T>)
    requires x !in a
    ensures RemoveFirst(a + [x] + b, x) == a + b
  {
    var s := a + [x] + b;
    assert s[|a|] == x;
    var k := IndexOf(s, x);
    assert s[..k] == a;
    assert s[k+1..] == b;
  }

  /** A prefix one longer is the prefix followed by the next element. */
  lemma TakeSnoc<T>(s: seq<T>, i: int)
    requires 0 <= i < |s|
    ensures s[..i+1] == s[..i] + [s[i]]
  {
  }

  /** Removing the first element of a suffix by value drops exactly it. */
  lemma RemoveFirstOfSuffix<T>(s: seq<T>, i: int)
    requires 0 <= i < |s|
    ensures s[i] in s[i..] && RemoveFirst(s[i..], s[i]) == s[i+1..]
  {
    var t := s[i..];
    assert t[0] == s[i];
    assert IndexOf(t, s[i]) == 0;
    assert t[1..] == s[i+1..];
  }

  /** Deleting one position keeps a list free of duplicates. */
  lemma DistinctDelete<T>(s: seq<T>, i: nat)
    requires Distinct(s) && i < |s|
    ensures Distinct(s[..i] + s[i+1..])
    ensures forall k | 0 <= k < |s| && k != i :: s[k] != s[i]
  {
    var n := s[..i] + s[i+1..];
    forall p, q | 0 <= p < q < |n| ensures n[p] != n[q] {
      var p' := if p < i then p else p + 1;
      var q' := if q < i then q else q + 1;
      assert n[p] == s[p'] && n[q] == s[q'];
    }
  }

  /** The elements left after deleting one index of a list without
      repetitions are the others. */
  lemma DeleteMembers<T>(s: seq<T>, k: nat)
    requires Distinct(s) && k < |s|
    ensures forall y :: y in s[..k] + s[k+1..] <==> y in s && y != s[k]
  {
    var r := s[..k] + s[k+1..];
    forall y ensures y in r <==> y in s && y != s[k] {
      if y in s && y != s[k] {
        var j :| 0 <= j < |s| && s[j] == y;
        if j < k {
          assert r[j] == y;
        } else {
          assert r[j-1] == y;
        }
      }
      if y in r {
        var j :| 0 <= j < |r| && r[j] == y;
        var j' := if j < k then j else j + 1;
        assert s[j'] == y;
      }
    }
  }

  /** Inserting a new element into a list without repetitions keeps it
      without repetitions, and adds just that element. */
  lemma InsertDistinct<T>(r: seq<T>, j: nat, x: T)
    requires Distinct(r) && x !in r && j <= |r|
    ensures Distinct(r[..j] + [x] + r[j..])
    ensures forall y :: y in r[..j] + [x] + r[j..] <==> y in r || y == x
  {
    var n := r[..j] + [x] + r[j..];
    assert r == r[..j] + r[j..];
    forall p, q | 0 <= p < q < |n| ensures n[p] != n[q] {
      if p == j {
        assert n[q] == r[q-1];
      } else if q == j {
        assert n[p] == r[p];
      } else {
        var p' := if p < j then p else p - 1;
        var q' := if q < j then q else q - 1;
        assert n[p] == r[p'] && n[q] == r[q'];
      }
    }
  }

  /** A list is its prefix, one element and its suffix. */
  lemma SplitAt<T>(s: seq<T>, k: nat)
    requires k < |s|
    ensures s == s[..k] + [s[k]] + s[k+1..]
  {
  }

  /** Where the elements of a list go when one index is deleted. */
  lemma DeleteIndex<T>(s: seq<T>, k: nat)
    requires k < |s|
    ensures var r := s[..k] + s[k+1..];
      && |r| == |s| - 1
      && (forall i | 0 <= i < k :: r[i] == s[i])
      && (forall i | k <= i < |r| :: r[i] == s[i+1])
  {
  }

  /** In a list without repetitions, `list.remove(x)` leaves a list without
      repetitions holding every other element. */
  lemma RemoveDistinct<T>(s: seq<T>, x: T)
    requires Distinct(s) && x in s
    ensures Distinct(RemoveFirst(s, x))
    ensures forall y :: y in RemoveFirst(s, x) <==> y in s && y != x
  {
    var k := IndexOf(s, x);
    DistinctDelete(s, k);
    DeleteMembers(s, k);
  }
}
