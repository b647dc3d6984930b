/**
 * Query semantics of the record store the services talk to.
 *
 * A table is a sequence of records in insertion order. `findFirst` and
 * `findUnique` return the first record satisfying a `where` filter, and
 * `findMany` returns every record satisfying it, in table order.
 */
module Records {
  import opened Wrappers

  /** Index of the first element of `s` that satisfies `p`, if there is one. */
  function FindFirst<T>(s: seq<T>, p: T -> bool): (r: Option<nat>)
    ensures r.Some? ==> r.value < |s| && p(s[r.value])
    ensures r.Some? ==> forall j :: 0 <= j < r.value ==> !p(s[j])
    ensures r.None? <==> forall j :: 0 <= j < |s| ==> !p(s[j])
  {
    if |s| == 0 then None
    else if p(s[0]) then Some(0)
    else match FindFirst(s[1..], p)
      case None => None
      case Some(i) => Some(i + 1)
  }

  /** The elements of `s` that satisfy `p`, in the order of `s`. */
  function Filter<T>(s: seq<T>, p: T -> bool): (r: seq<T>)
    ensures |r| <= |s|
    ensures forall k :: 0 <= k < |r| ==> p(r[k])
  {
    if |s| == 0 then []
    else if p(s[0]) then [s[0]] + Filter(s[1..], p)
    else Filter(s[1..], p)
  }

  /** The first match is determined by its contract: any index that is a
      match with no match before it is the one `FindFirst` returns. */
  lemma FindFirstIsLeast<T>(s: seq<T>, p: T -> bool, i: nat)
    requires i < |s| && p(s[i])
    requires forall j :: 0 <= j < i ==> !p(s[j])
    ensures FindFirst(s, p) == Some(i)
  {
    var r := FindFirst(s, p);
    assert r.Some? by { assert p(s[i]); }
    assert r.value <= i by { assert p(s[i]); }
  }

  /** Appending an element never changes an existing first match; without
      one, the appended element is the first match exactly when it matches. */
  lemma FindFirstAppend<T>(s: seq<T>, x: T, p: T -> bool)
    ensures FindFirst(s + [x], p) ==
      if FindFirst(s, p).Some? then FindFirst(s, p)
      else if p(x) then Some(|s|) else None
  {
    var t := s + [x];
    match FindFirst(s, p)
    case Some(i) =>
      assert forall j :: 0 <= j < i ==> t[j] == s[j];
      FindFirstIsLeast(t, p, i);
    case None =>
      assert forall j :: 0 <= j < |s| ==> t[j] == s[j];
      if p(x) {
        FindFirstIsLeast(t, p, |s|);
      }
  }

  /** Replacing one element by another that agrees with it on `p` leaves the
      first match where it was. */
  lemma FindFirstReplace<T>(s: seq<T>, i: nat, x: T, p: T -> bool)
    requires i < |s| && p(x) == p(s[i])
    ensures FindFirst(s[i := x], p) == FindFirst(s, p)
  {
    var t := s[i := x];
    assert forall j :: 0 <= j < |s| ==> p(t[j]) == p(s[j]);
    match FindFirst(s, p)
    case Some(k) => FindFirstIsLeast(t, p, k);
    case None =>
  }

  /** Filtering distributes over concatenation. */
  lemma {:induction false} FilterConcat<T>(a: seq<T>, b: seq<T>, p: T -> bool)
    ensures Filter(a + b, p) == Filter(a, p) + Filter(b, p)
  {
    if |a| == 0 {
      assert a + b == b;
    } else {
      assert (a + b)[0] == a[0];
      assert (a + b)[1..] == a[1..] + b;
      FilterConcat(a[1..], b, p);
    }
  }

  /** Filtering a sequence around one element: what comes before it, the
      element itself when it passes, and what comes after it. */
  lemma FilterAround<T>(s: seq<T>, i: nat, p: T -> bool)
    requires i < |s|
    ensures Filter(s, p) ==
      Filter(s[..i], p) + ((if p(s[i]) then [s[i]] else []) + Filter(s[i + 1..], p))
  {
    var rest := s[i..];
    assert s == s[..i] + rest;
    FilterConcat(s[..i], rest, p);
    assert rest[0] == s[i] && rest[1..] == s[i + 1..];
    if p(s[i]) {
      assert Filter(rest, p) == [s[i]] + Filter(s[i + 1..], p);
    } else {
      assert Filter(rest, p) == Filter(s[i + 1..], p);
      assert [] + Filter(s[i + 1..], p) == Filter(s[i + 1..], p);
    }
  }

  /** `Filter` keeps exactly the elements that pass, each as many times as
      it occurs in the input. */
  lemma {:induction false} FilterMembers<T(!new)>(s: seq<T>, p: T -> bool)
    ensures forall x :: x in Filter(s, p) <==> x in s && p(x)
    ensures forall x :: multiset(Filter(s, p))[x] == if p(x) then multiset(s)[x] else 0
  {
    if |s| > 0 {
      FilterMembers(s[1..], p);
      assert s == [s[0]] + s[1..];
      assert multiset(s) == multiset{s[0]} + multiset(s[1..]);
      if p(s[0]) {
        assert multiset(Filter(s, p)) == multiset{s[0]} + multiset(Filter(s[1..], p));
      }
    }
  }
}
