/** The doubly linked lists of the program, as sequences of distinct addresses. */
module Lists {

  /** Unlinking a node. */
  function Without<T(==)>(s: seq<T>, x: T): (r: seq<T>)
  {
    if s == [] then [] else if s[0] == x then Without(s[1..], x) else [s[0]] + Without(s[1..], x)
  }

  predicate NoDup<T(==)>(s: seq<T>)
  {
    forall i, j :: 0 <= i < j < |s| ==> s[i] != s[j]
  }

  lemma {:induction false} WithoutProps<T>(s: seq<T>, x: T)
    ensures |Without(s, x)| <= |s| && (x in s ==> |Without(s, x)| < |s|)
    ensures forall y :: y in Without(s, x) <==> y in s && y != x
    ensures NoDup(s) ==> NoDup(Without(s, x))
    ensures x !in s ==> Without(s, x) == s
  {
    if s != [] {
      WithoutProps(s[1..], x);
      assert s == [s[0]] + s[1..];
      if s[0] != x && NoDup(s) {
        assert s[0] !in s[1..];
      }
    }
  }

  /** Unlinking the first node. */
  lemma WithoutFirst<T>(s: seq<T>)
    requires s != [] && NoDup(s)
    ensures Without(s, s[0]) == s[1..]
  {
    assert s[0] !in s[1..];
    WithoutProps(s[1..], s[0]);
  }

  /** The elements of a, in order, among those of b. */
  predicate Subseq<T(==)>(a: seq<T>, b: seq<T>)
  {
    a == [] || (b != [] && (if a[0] == b[0] then Subseq(a[1..], b[1..]) else Subseq(a, b[1..])))
  }

  lemma {:induction false} SubseqSame<T>(a: seq<T>)
    ensures Subseq(a, a)
  {
    if a != [] { SubseqSame(a[1..]); }
  }

  /** Skipping an element of b, whether or not it could have been used. */
  lemma {:induction false} SubseqSkip<T>(a: seq<T>, b: seq<T>)
    requires b != [] && Subseq(a, b[1..])
    ensures Subseq(a, b)
    decreases |b|, 0
  {
    if a != [] && a[0] == b[0] { SubseqTail(a, b[1..]); }
  }

  lemma {:induction false} SubseqTail<T>(a: seq<T>, b: seq<T>)
    requires a != [] && Subseq(a, b)
    ensures Subseq(a[1..], b)
    decreases |b|, 1
  {
    if a[0] == b[0] { SubseqSkip(a[1..], b); } else { SubseqTail(a, b[1..]); SubseqSkip(a[1..], b); }
  }

  lemma {:induction false} SubseqTrans<T>(a: seq<T>, b: seq<T>, c: seq<T>)
    requires Subseq(a, b) && Subseq(b, c)
    ensures Subseq(a, c)
    decreases |b| + |c|
  {
    if a != [] {
      if b[0] != c[0] {
        SubseqTrans(a, b, c[1..]);
        SubseqSkip(a, c);
      } else if a[0] == b[0] {
        SubseqTrans(a[1..], b[1..], c[1..]);
      } else {
        SubseqTrans(a, b[1..], c[1..]);
        SubseqSkip(a, c);
      }
    }
  }

  lemma {:induction false} SubseqAppend<T>(front: seq<T>, a: seq<T>, b: seq<T>)
    requires Subseq(a, b)
    ensures Subseq(front + a, front + b)
  {
    if front == [] {
      assert front + a == a && front + b == b;
    } else {
      SubseqAppend(front[1..], a, b);
      assert (front + a)[1..] == front[1..] + a && (front + b)[1..] == front[1..] + b;
    }
  }

  lemma {:induction false} SubseqLength<T>(a: seq<T>, b: seq<T>)
    requires Subseq(a, b)
    ensures |a| <= |b| && forall x :: x in a ==> x in b
    decreases |b|
  {
    if a != [] {
      assert a == [a[0]] + a[1..];
      if a[0] == b[0] { SubseqLength(a[1..], b[1..]); } else { SubseqLength(a, b[1..]); }
    }
  }

  lemma {:induction false} SubseqNoDup<T>(a: seq<T>, b: seq<T>)
    requires Subseq(a, b) && NoDup(b)
    ensures NoDup(a)
    decreases |b|
  {
    if a != [] {
      if a[0] == b[0] {
        SubseqNoDup(a[1..], b[1..]);
        SubseqLength(a[1..], b[1..]);
        assert b[0] !in b[1..] && a == [a[0]] + a[1..];
      } else {
        SubseqNoDup(a, b[1..]);
      }
    }
  }

  lemma {:induction false} WithoutSubseq<T>(s: seq<T>, x: T)
    ensures Subseq(Without(s, x), s)
    ensures forall y :: y in s && y !in Without(s, x) ==> y == x
  {
    if s != [] {
      WithoutSubseq(s[1..], x);
      if s[0] == x { SubseqSkip(Without(s, x), s); }
    }
  }
}
