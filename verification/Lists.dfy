/** The distinct elements of a list in first-seen order: what the source keeps as dictionary keys. */
module Lists {

  ghost predicate Distinct<T>(s: seq<T>) {
    forall i, j :: 0 <= i < j < |s| ==> s[i] != s[j]
  }

  lemma DistinctTail<T>(s: seq<T>)
    requires s != [] && Distinct(s)
    ensures Distinct(s[1..]) && s[0] !in s[1..]
  {
  }

  lemma DistinctConcat<T>(a: seq<T>, b: seq<T>)
    requires Distinct(a) && Distinct(b) && forall x :: x in b ==> x !in a
    ensures Distinct(a + b)
  {
    assert forall i :: 0 <= i < |b| ==> b[i] in b;
  }

  function FirstSeen<T(==)>(s: seq<T>): seq<T> {
    if s == [] then []
    else
      var earlier := FirstSeen(s[..|s| - 1]);
      if s[|s| - 1] in earlier then earlier else earlier + [s[|s| - 1]]
  }

  lemma {:induction false} FirstSeenIsDistinct<T>(s: seq<T>)
    ensures Distinct(FirstSeen(s)) && forall x :: x in FirstSeen(s) <==> x in s
  {
    if s != [] {
      FirstSeenIsDistinct(s[..|s| - 1]);
      assert s == s[..|s| - 1] + [s[|s| - 1]];
    }
  }

  lemma FirstSeenStep<T>(s: seq<T>, last: T)
    ensures FirstSeen(s + [last]) == if last in FirstSeen(s) then FirstSeen(s) else FirstSeen(s) + [last]
  {
    assert (s + [last])[..|s|] == s;
  }

  lemma {:induction false} FirstSeenKeepsDistinct<T>(s: seq<T>)
    requires Distinct(s)
    ensures FirstSeen(s) == s
  {
    if s != [] {
      var init, last := s[..|s| - 1], s[|s| - 1];
      FirstSeenKeepsDistinct(init);
      assert s == init + [last];
      assert forall i :: 0 <= i < |init| ==> init[i] == s[i] && s[i] != s[|init|];
    }
  }

  /** Elements already seen add nothing. */
  lemma {:induction false} FirstSeenAbsorbs<T>(s: seq<T>, more: seq<T>)
    requires forall x :: x in more ==> x in s
    ensures FirstSeen(s + more) == FirstSeen(s)
  {
    if more == [] {
      assert s + more == s;
    } else {
      var init, last := more[..|more| - 1], more[|more| - 1];
      assert more == init + [last];
      assert s + more == (s + init) + [last];
      FirstSeenAbsorbs(s, init);
      FirstSeenStep(s + init, last);
      FirstSeenIsDistinct(s);
      assert last in more;
    }
  }

  method CollectFirstSeen<T(==)>(s: seq<T>) returns (seen: seq<T>)
    ensures seen == FirstSeen(s)
  {
    seen := [];
    for n := 0 to |s|
      invariant seen == FirstSeen(s[..n])
    {
      assert s[..n + 1] == s[..n] + [s[n]];
      FirstSeenStep(s[..n], s[n]);
      if s[n] !in seen {
        seen := seen + [s[n]];
      }
    }
    assert s[..|s|] == s;
  }

  // ---------- Appending ----------

  lemma AppendAssociates<T>(a: seq<T>, b: seq<T>, c: seq<T>)
    ensures (a + b) + c == a + (b + c)
  {
  }

  lemma SplitAt<T>(s: seq<T>, k: nat)
    requires k <= |s|
    ensures s == s[..k] + s[k..]
  {
  }

  lemma AppendNothing<T>(s: seq<T>)
    ensures s + [] == s
  {
  }

  lemma TakeOneMore<T>(a: seq<T>, b: seq<T>, n: nat)
    requires n < |b|
    ensures a + b[..n + 1] == (a + b[..n]) + [b[n]]
  {
  }

  lemma InitOfConcat<T>(a: seq<T>, b: seq<T>)
    requires b != []
    ensures (a + b)[..|a + b| - 1] == a + b[..|b| - 1]
  {
  }

  /** `"".join(parts)`. */
  function Joined(parts: seq<string>): string {
    if parts == [] then "" else Joined(parts[..|parts| - 1]) + parts[|parts| - 1]
  }

  lemma JoinedAppend(parts: seq<string>, last: string)
    ensures Joined(parts + [last]) == Joined(parts) + last
  {
    assert (parts + [last])[..|parts|] == parts;
  }

  // ---------- Where a list holds something ----------

  ghost function Where<T(!new)>(s: seq<T>, p: T -> bool): set<int> {
    set i | 0 <= i < |s| && p(s[i])
  }

  lemma WhereNothing<T(!new)>(p: T -> bool)
    ensures Where([], p) == {}
  {
  }

  lemma WhereStep<T(!new)>(s: seq<T>, p: T -> bool)
    requires s != []
    ensures |Where(s, p)| == |Where(s[..|s| - 1], p)| + if p(s[|s| - 1]) then 1 else 0
  {
    var before, n := Where(s[..|s| - 1], p), |s| - 1;
    assert Where(s, p) == if p(s[n]) then before + {n} else before;
  }

  // ---------- What a list yields, element by element ----------

  function Yield<T, U>(s: seq<T>, f: T -> seq<U>): seq<U> {
    if s == [] then [] else Yield(s[..|s| - 1], f) + f(s[|s| - 1])
  }

  ghost predicate YieldsAt<T(!new), U(!new)>(s: seq<T>, f: T -> seq<U>, k: int) {
    0 <= k < |s| && f(s[k]) != []
  }

  /** The one place of the list that yields anything. */
  ghost predicate YieldsOnlyAt<T(!new), U(!new)>(s: seq<T>, f: T -> seq<U>, k: int) {
    YieldsAt(s, f, k) && forall j :: YieldsAt(s, f, j) ==> j == k
  }

  lemma {:induction false} NothingYielded<T(!new), U(!new)>(s: seq<T>, f: T -> seq<U>)
    ensures Yield(s, f) == [] <==> forall k :: !YieldsAt(s, f, k)
  {
    if s != [] {
      var init, n := s[..|s| - 1], |s| - 1;
      NothingYielded(init, f);
      assert forall k :: YieldsAt(s, f, k) <==> YieldsAt(init, f, k) || (k == n && f(s[n]) != []);
      if f(s[n]) != [] { assert YieldsAt(s, f, n); } else { assert Yield(s, f) == Yield(init, f); }
    }
  }

  /** Where each element yields one thing or nothing, one thing in all means one place that yields. */
  lemma {:induction false} OneYielded<T(!new), U(!new)>(s: seq<T>, f: T -> seq<U>)
    requires forall x :: |f(x)| <= 1
    ensures |Yield(s, f)| == 1 <==> exists k :: YieldsOnlyAt(s, f, k)
    ensures forall k :: YieldsOnlyAt(s, f, k) ==> Yield(s, f) == f(s[k])
  {
    if s != [] {
      var init, n := s[..|s| - 1], |s| - 1;
      OneYielded(init, f);
      NothingYielded(init, f);
      assert forall k :: YieldsAt(s, f, k) <==> YieldsAt(init, f, k) || (k == n && f(s[n]) != []);
      if f(s[n]) == [] {
        assert Yield(s, f) == Yield(init, f);
        assert forall k :: YieldsOnlyAt(s, f, k) <==> YieldsOnlyAt(init, f, k);
      } else {
        assert YieldsAt(s, f, n);
        assert forall k :: YieldsOnlyAt(s, f, k) ==> k == n;
        if Yield(init, f) == [] {
          assert YieldsOnlyAt(s, f, n);
        } else {
          var j :| YieldsAt(init, f, j);
          assert YieldsAt(s, f, j) && j != n;
        }
      }
    }
  }
}
