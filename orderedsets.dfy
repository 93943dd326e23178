/**
 * Lists used as insertion-ordered sets. The pages build them with the Python
 * idiom "for m in s: if m not in acc: acc.append(m)" (and with
 * `list(dict.fromkeys(s))`, which yields the same list); `AppendNew` is that idiom.
 */
module OrderedSets {

  predicate NoDups<T(==,!new)>(s: seq<T>) {
    forall i, j :: 0 <= i < j < |s| ==> s[i] != s[j]
  }

  lemma NoDupsSnoc<T(!new)>(s: seq<T>, x: T)
    requires NoDups(s) && x !in s
    ensures NoDups(s + [x])
  {
  }

  /** Python's `s.index(x)`: the position of the first occurrence of `x`. */
  function FirstIndex<T(==,!new)>(s: seq<T>, x: T): (k: nat)
    requires x in s
    ensures k < |s| && s[k] == x && x !in s[..k]
  {
    if s[0] == x then 0
    else
      var k := FirstIndex(s[1..], x);
      assert s[1..][..k] == s[1..k + 1];
      1 + k
  }

  lemma {:induction false} FirstIndexPrefix<T(!new)>(s: seq<T>, t: seq<T>, x: T)
    requires x in s
    ensures FirstIndex(s + t, x) == FirstIndex(s, x)
  {
    var k := FirstIndex(s, x);
    assert (s + t)[k] == x;
    assert (s + t)[..k] == s[..k];
  }

  lemma FirstIndexLast<T(!new)>(s: seq<T>, x: T)
    requires x !in s
    ensures FirstIndex(s + [x], x) == |s|
  {
    assert (s + [x])[..|s|] == s;
  }

  /**
   * Appends, in order of first occurrence, the elements of `s` that are not yet in `acc`.
   * `acc` stays a prefix, the members are those of `acc` and `s`, only missing
   * elements are added and no duplicate is introduced.
   */
  function AppendNew<T(==,!new)>(acc: seq<T>, s: seq<T>): (r: seq<T>)
    ensures |acc| <= |r| <= |acc| + |s| && r[..|acc|] == acc
    ensures forall x :: x in r <==> x in acc || x in s
    ensures forall i :: |acc| <= i < |r| ==> r[i] in s && r[i] !in acc
    ensures NoDups(acc) ==> NoDups(r)
    decreases |s|
  {
    if s == [] then acc
    else
      var a := AppendNew(acc, s[..|s| - 1]);
      var x := s[|s| - 1];
      assert s == s[..|s| - 1] + [x];
      if x in a then a
      else
        assert (a + [x])[..|acc|] == a[..|acc|];
        a + [x]
  }

  /** One step of the loop AppendNew describes: the next element is appended when it is not there yet. */
  lemma AppendNewStep<T(!new)>(acc: seq<T>, s: seq<T>, x: T)
    ensures AppendNew(acc, s + [x]) == if x in AppendNew(acc, s) then AppendNew(acc, s) else AppendNew(acc, s) + [x]
  {
    assert (s + [x])[..|s|] == s;
  }

  /** The loop form of `AppendNewStep`: going from the prefix `s[..i]` to `s[..i + 1]`. */
  lemma AppendNewPrefix<T(!new)>(acc: seq<T>, s: seq<T>, i: nat)
    requires i < |s|
    ensures AppendNew(acc, s[..i + 1]) ==
      if s[i] in AppendNew(acc, s[..i]) then AppendNew(acc, s[..i]) else AppendNew(acc, s[..i]) + [s[i]]
  {
    assert s[..i + 1] == s[..i] + [s[i]];
    AppendNewStep(acc, s[..i], s[i]);
  }

  /** Appending the elements of `s` and then those of `t` is appending those of `s + t`. */
  lemma {:induction false} AppendNewConcat<T(!new)>(acc: seq<T>, s: seq<T>, t: seq<T>)
    ensures AppendNew(AppendNew(acc, s), t) == AppendNew(acc, s + t)
    decreases |t|
  {
    if t == [] {
      assert s + t == s;
    } else {
      var init, x := t[..|t| - 1], t[|t| - 1];
      AppendNewConcat(acc, s, init);
      assert t == init + [x];
      assert s + t == (s + init) + [x];
      AppendNewStep(acc, s + init, x);
      AppendNewStep(AppendNew(acc, s), init, x);
    }
  }

  /** The elements AppendNew adds come in the order of their first occurrence in `s`. */
  lemma {:induction false} AppendNewOrder<T(!new)>(acc: seq<T>, s: seq<T>)
    ensures forall i, j :: |acc| <= i < j < |AppendNew(acc, s)| ==>
      FirstIndex(s, AppendNew(acc, s)[i]) < FirstIndex(s, AppendNew(acc, s)[j])
    decreases |s|
  {
    if s != [] {
      var init, x := s[..|s| - 1], s[|s| - 1];
      var a := AppendNew(acc, init);
      AppendNewOrder(acc, init);
      assert s == init + [x];
      forall y | y in init
        ensures FirstIndex(s, y) == FirstIndex(init, y) < |init|
      {
        FirstIndexPrefix(init, [x], y);
      }
      if x !in a {
        FirstIndexLast(init, x);
        var r := a + [x];
        forall i, j | |acc| <= i < j < |r|
          ensures FirstIndex(s, r[i]) < FirstIndex(s, r[j])
        {
          assert r[i] == a[i] && a[i] in init;
          FirstIndexPrefix(init, [x], a[i]);
          if j < |a| {
            assert r[j] == a[j] && a[j] in init;
            FirstIndexPrefix(init, [x], a[j]);
            assert FirstIndex(init, a[i]) < FirstIndex(init, a[j]);
          }
        }
      }
    }
  }

  /** Once `acc` already holds every element of `s`, AppendNew adds nothing. */
  lemma {:induction false} AppendNewCovered<T(!new)>(acc: seq<T>, s: seq<T>)
    requires forall x :: x in s ==> x in acc
    ensures AppendNew(acc, s) == acc
    decreases |s|
  {
    if s != [] {
      AppendNewCovered(acc, s[..|s| - 1]);
    }
  }

  /** `list(dict.fromkeys(s))`: the elements of `s` without repeats, in order of first occurrence. */
  function Dedup<T(==,!new)>(s: seq<T>): (r: seq<T>)
    ensures NoDups(r)
    ensures forall x :: x in r <==> x in s
    ensures forall i, j :: 0 <= i < j < |r| ==> FirstIndex(s, r[i]) < FirstIndex(s, r[j])
  {
    AppendNewOrder([], s);
    AppendNew([], s)
  }

  predicate Increasing(a: seq<int>) {
    forall i, j :: 0 <= i < j < |a| ==> a[i] < a[j]
  }

  /** Two strictly increasing lists with the same members are equal. */
  lemma {:induction false} IncreasingUnique(a: seq<int>, b: seq<int>)
    requires Increasing(a) && Increasing(b)
    requires forall x :: x in a <==> x in b
    ensures a == b
    decreases |a|
  {
    assert a == [] || a[0] in a;
    assert b == [] || b[0] in b;
    if a != [] && b != [] {
      assert a[0] in b && b[0] in a;
      assert a[0] == b[0];
      forall x
        ensures x in a[1..] <==> x in b[1..]
      {
        assert x in a[1..] <==> x in a && x != a[0];
        assert x in b[1..] <==> x in b && x != b[0];
      }
      IncreasingUnique(a[1..], b[1..]);
      assert a == [a[0]] + a[1..] && b == [b[0]] + b[1..];
    }
  }

  /** The position in `s` of the first occurrence of each element of `r`. */
  function FirstIndices<T(==,!new)>(s: seq<T>, r: seq<T>): (ks: seq<nat>)
    requires forall x :: x in r ==> x in s
    ensures |ks| == |r|
    ensures forall i :: 0 <= i < |r| ==> ks[i] == FirstIndex(s, r[i])
  {
    seq(|r|, i requires 0 <= i < |r| => FirstIndex(s, r[i]))
  }

  lemma FirstIndicesIncluded<T(!new)>(s: seq<T>, a: seq<T>, b: seq<T>)
    requires forall x :: x in a ==> x in b
    requires forall x :: x in b ==> x in s
    ensures forall n :: n in FirstIndices(s, a) ==> n in FirstIndices(s, b)
  {
    var ka, kb := FirstIndices(s, a), FirstIndices(s, b);
    forall n | n in ka
      ensures n in kb
    {
      var i :| 0 <= i < |a| && ka[i] == n;
      assert a[i] in b;
      var j :| 0 <= j < |b| && b[j] == a[i];
      assert kb[j] == n;
    }
  }

  /**
   * Dedup's contract determines it: a list with exactly the members of `s`, in
   * strictly increasing order of first occurrence, is `Dedup(s)`.
   */
  lemma DedupUnique<T(!new)>(s: seq<T>, r: seq<T>)
    requires forall x :: x in r <==> x in s
    requires forall i, j :: 0 <= i < j < |r| ==> FirstIndex(s, r[i]) < FirstIndex(s, r[j])
    ensures r == Dedup(s)
  {
    var d := Dedup(s);
    var kr, kd := FirstIndices(s, r), FirstIndices(s, d);
    FirstIndicesIncluded(s, r, d);
    FirstIndicesIncluded(s, d, r);
    IncreasingUnique(kr, kd);
    forall i | 0 <= i < |r|
      ensures r[i] == d[i]
    {
      assert s[kr[i]] == r[i] && s[kd[i]] == d[i];
    }
  }

  /** A list without repeats is its own de-duplication. */
  lemma {:induction false} DedupNoDups<T(!new)>(s: seq<T>)
    requires NoDups(s)
    ensures Dedup(s) == s
    decreases |s|
  {
    if s != [] {
      var init := s[..|s| - 1];
      assert NoDups(init);
      DedupNoDups(init);
      assert s == init + [s[|s| - 1]];
    }
  }
}
