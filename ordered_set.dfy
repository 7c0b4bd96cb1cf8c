/**
 * A JavaScript `Set` as the server and the web client use it: a collection
 * without duplicates that remembers insertion order (`Array.from(set)` lists
 * the elements oldest-first). `add` of a present element keeps its place;
 * `delete` removes the one occurrence.
 */
module OrderedSet {

  predicate NoDup<T(==)>(s: seq<T>)
  {
    forall i, j :: 0 <= i < j < |s| ==> s[i] != s[j]
  }

  /** Set.prototype.add: the old elements keep their order, and x is present afterwards. */
  function Add<T(==,!new)>(s: seq<T>, x: T): (r: seq<T>)
    ensures |s| <= |r| <= |s| + 1 && r[..|s|] == s
    ensures forall y :: y in r <==> y in s || y == x
    ensures NoDup(s) ==> NoDup(r)
  {
    if x in s then s else s + [x]
  }

  /** Set.prototype.delete: x is absent afterwards and every other element is kept. */
  function Delete<T(==,!new)>(s: seq<T>, x: T): (r: seq<T>)
    ensures x !in r
    ensures forall y :: y != x ==> (y in r <==> y in s)
    ensures |r| <= |s|
    ensures NoDup(s) ==> NoDup(r)
  {
    if s == [] then []
    else if s[0] == x then Delete(s[1..], x)
    else
      var rest := Delete(s[1..], x);
      assert NoDup(s) ==> NoDup(s[1..]) && s[0] !in s[1..] by {
        if NoDup(s) {
          forall a, b | 0 <= a < b < |s| - 1 ensures s[1..][a] != s[1..][b] {
            assert s[1..][a] == s[a + 1] && s[1..][b] == s[b + 1];
          }
          forall a | 0 <= a < |s| - 1 ensures s[1..][a] != s[0] { assert s[1..][a] == s[a + 1]; }
        }
      }
      [s[0]] + rest
  }

  /** Deleting an absent element changes nothing. */
  lemma {:induction false} DeleteAbsent<T(!new)>(s: seq<T>, x: T)
    requires x !in s
    ensures Delete(s, x) == s
  {
    if s != [] {
      DeleteAbsent(s[1..], x);
      assert s == [s[0]] + s[1..];
    }
  }

  /** In a duplicate-free sequence, delete cuts out exactly the one position holding x. */
  lemma {:induction false} DeleteAt<T(!new)>(s: seq<T>, i: nat)
    requires NoDup(s) && i < |s|
    ensures Delete(s, s[i]) == s[..i] + s[i + 1..]
  {
    if i == 0 {
      DeleteAbsent(s[1..], s[0]);
    } else {
      assert NoDup(s[1..]) by {
        forall a, b | 0 <= a < b < |s| - 1 ensures s[1..][a] != s[1..][b] {
          assert s[1..][a] == s[a + 1] && s[1..][b] == s[b + 1];
        }
      }
      DeleteAt(s[1..], i - 1);
      assert s[1..][i - 1] == s[i];
      assert s[1..][..i - 1] + s[1..][i..] == s[1..i] + s[i + 1..];
      assert s[..i] == [s[0]] + s[1..i];
    }
  }

  /** Deleting after adding an absent element gives back the original. */
  lemma AddThenDelete<T(!new)>(s: seq<T>, x: T)
    requires x !in s
    ensures Delete(Add(s, x), x) == s
  {
    assert NoDup([x]);
    assert Add(s, x) == s + [x];
    DeleteConcat(s, [x], x);
    DeleteAbsent(s, x);
  }

  /** Delete works element by element, so it keeps the relative order of what it keeps. */
  lemma {:induction false} DeleteConcat<T(!new)>(a: seq<T>, b: seq<T>, x: T)
    ensures Delete(a + b, x) == Delete(a, x) + Delete(b, x)
  {
    if a == [] {
      assert a + b == b;
    } else {
      ConcatCons(a, b);
      DeleteConcat(a[1..], b, x);
    }
  }

  /** The head and tail of a concatenation whose left part is not empty. */
  lemma ConcatCons<T>(a: seq<T>, b: seq<T>)
    requires a != []
    ensures (a + b)[0] == a[0] && (a + b)[1..] == a[1..] + b
  {
  }

  /** In a duplicate-free sequence every value occurs at most once. */
  lemma {:induction false} NoDupCount<T(!new)>(s: seq<T>, x: T)
    requires NoDup(s)
    ensures multiset(s)[x] <= 1
  {
    if s != [] {
      assert s == [s[0]] + s[1..];
      assert NoDup(s[1..]) by {
        forall a, b | 0 <= a < b < |s| - 1 ensures s[1..][a] != s[1..][b] {
          assert s[1..][a] == s[a + 1] && s[1..][b] == s[b + 1];
        }
      }
      NoDupCount(s[1..], x);
      if s[0] == x {
        assert x !in s[1..] by {
          forall a | 0 <= a < |s| - 1 ensures s[1..][a] != x { assert s[1..][a] == s[a + 1]; }
        }
      }
    }
  }

  /** A value at two positions occurs at least twice. */
  lemma RepeatCount<T>(s: seq<T>, i: nat, j: nat)
    requires i < j < |s| && s[i] == s[j]
    ensures multiset(s)[s[i]] >= 2
  {
    assert s == s[..j] + s[j..];
    assert s[i] in s[..j] && s[j] in s[j..];
  }

  /** Whatever draws its elements from a duplicate-free sequence, no more often than they occur there, is duplicate-free. */
  lemma SubMultisetNoDup<T(!new)>(a: seq<T>, b: seq<T>)
    requires NoDup(b) && multiset(a) <= multiset(b)
    ensures NoDup(a)
  {
    forall i, j | 0 <= i < j < |a| ensures a[i] != a[j] {
      NoDupCount(b, a[i]);
      if a[i] == a[j] {
        RepeatCount(a, i, j);
      }
    }
  }
}
