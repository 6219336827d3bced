/** Reciprocal rank fusion, and the hybrid retrieval that takes its evidence from it. */
module Fusion {
  import opened Wrappers
  import opened Lists
  import opened BlockRefs
  import opened Mode1Graph

  const RRF_K := 60
  const EVIDENCE_TOP_K := 8

  /** One position of one list: the key it ranks and what that adds to the key's score. */
  datatype Vote<K> = Vote(key: K, weight: real)

  datatype Scored<K> = Scored(key: K, score: real)

  function Weight(k: nat, position: nat): real {
    1.0 / (k + position + 1) as real
  }

  function VotesOf<K>(ranking: seq<K>, k: nat): (r: seq<Vote<K>>)
    ensures |r| == |ranking|
    ensures forall i :: 0 <= i < |ranking| ==> r[i] == Vote(ranking[i], Weight(k, i))
  {
    seq(|ranking|, i requires 0 <= i < |ranking| => Vote(ranking[i], Weight(k, i)))
  }

  function Votes<K>(rankings: seq<seq<K>>, k: nat): seq<Vote<K>> {
    if rankings == [] then [] else Votes(rankings[..|rankings| - 1], k) + VotesOf(rankings[|rankings| - 1], k)
  }

  function KeysOf<K>(votes: seq<Vote<K>>): (r: seq<K>)
    ensures |r| == |votes|
    ensures forall i :: 0 <= i < |votes| ==> r[i] == votes[i].key
  {
    seq(|votes|, i requires 0 <= i < |votes| => votes[i].key)
  }

  /** The sum of what every list adds to a key. */
  function Score<K(==)>(votes: seq<Vote<K>>, key: K): real {
    if votes == [] then 0.0
    else Score(votes[..|votes| - 1], key) + (if votes[|votes| - 1].key == key then votes[|votes| - 1].weight else 0.0)
  }

  function IndexOf<K(==)>(s: seq<K>, x: K): (i: nat)
    requires x in s
    ensures i < |s| && s[i] == x && x !in s[..i]
  {
    if s[0] == x then 0 else
      var i := IndexOf(s[1..], x);
      assert s[..i + 1] == [s[0]] + s[1..][..i];
      i + 1
  }

  /** The order of the fusion: higher score first, ties by the order keys were first seen in. */
  ghost predicate Precedes<K>(keys: seq<K>, a: Scored<K>, b: Scored<K>)
    requires a.key in keys && b.key in keys
  {
    a.score > b.score || (a.score == b.score && IndexOf(keys, a.key) < IndexOf(keys, b.key))
  }

  /** Every key of the lists exactly once. */
  ghost predicate IsUnion<K(!new)>(fused: seq<Scored<K>>, keys: seq<K>) {
    && |fused| == |FirstSeen(keys)|
    && (forall i, j :: 0 <= i < j < |fused| ==> fused[i].key != fused[j].key)
    && (forall i :: 0 <= i < |fused| ==> fused[i].key in keys)
    && (forall x :: x in keys ==> exists i :: 0 <= i < |fused| && fused[i].key == x)
  }

  ghost predicate IsRanked<K(!new)>(fused: seq<Scored<K>>, keys: seq<K>)
    requires IsUnion(fused, keys)
  {
    forall i, j :: 0 <= i < j < |fused| ==> Precedes(keys, fused[i], fused[j])
  }

  /** What the fusion of ranked lists is. */
  ghost predicate IsFusion<K(!new)>(fused: seq<Scored<K>>, rankings: seq<seq<K>>, k: nat) {
    var votes := Votes(rankings, k);
    && IsUnion(fused, KeysOf(votes))
    && IsRanked(fused, KeysOf(votes))
    && (forall i :: 0 <= i < |fused| ==> fused[i].score == Score(votes, fused[i].key))
  }

  // ---------- The accumulating loops ----------

  lemma VotesStep<K(!new)>(rankings: seq<seq<K>>, k: nat, n: nat)
    requires n < |rankings|
    ensures Votes(rankings[..n + 1], k) == Votes(rankings[..n], k) + VotesOf(rankings[n], k)
  {
    assert rankings[..n + 1][..n] == rankings[..n] && rankings[..n + 1][n] == rankings[n];
  }

  lemma ScoreStep<K(!new)>(votes: seq<Vote<K>>, v: Vote<K>, key: K)
    ensures Score(votes + [v], key) == Score(votes, key) + (if v.key == key then v.weight else 0.0)
  {
    assert (votes + [v])[..|votes|] == votes;
  }

  /** The dictionaries after counting `votes`: every key's score, and when it was first seen. */
  ghost predicate Tallied<K(!new)>(votes: seq<Vote<K>>, scores: map<K, real>, firstSeen: map<K, nat>) {
    var seen := FirstSeen(KeysOf(votes));
    && (forall x :: x in scores <==> x in seen)
    && (forall x :: x in firstSeen <==> x in seen)
    && (forall x :: x in scores ==> scores[x] == Score(votes, x))
    && (forall i :: 0 <= i < |seen| ==> seen[i] in firstSeen && firstSeen[seen[i]] == i)
  }

  lemma {:induction false} UnseenScoresNothing<K(!new)>(votes: seq<Vote<K>>, key: K)
    requires key !in KeysOf(votes)
    ensures Score(votes, key) == 0.0
  {
    if votes != [] {
      var init := votes[..|votes| - 1];
      assert KeysOf(votes)[|votes| - 1] == votes[|votes| - 1].key;
      assert forall i :: 0 <= i < |init| ==> KeysOf(init)[i] == KeysOf(votes)[i];
      UnseenScoresNothing(init, key);
    }
  }

  lemma TallyOne<K(!new)>(votes: seq<Vote<K>>, scores: map<K, real>, firstSeen: map<K, nat>, v: Vote<K>)
    requires Tallied(votes, scores, firstSeen)
    ensures Tallied(votes + [v],
                    scores[v.key := (if v.key in scores then scores[v.key] else 0.0) + v.weight],
                    if v.key in firstSeen then firstSeen else firstSeen[v.key := |FirstSeen(KeysOf(votes))|])
  {
    var seen := FirstSeen(KeysOf(votes));
    SeenStep(votes, v);
    ScoredOne(votes, scores, v);
    if v.key !in firstSeen {
      FirstSeenIsDistinct(KeysOf(votes));
    }
  }

  lemma SeenStep<K(!new)>(votes: seq<Vote<K>>, v: Vote<K>)
    ensures var seen := FirstSeen(KeysOf(votes));
      FirstSeen(KeysOf(votes + [v])) == if v.key in seen then seen else seen + [v.key]
  {
    assert KeysOf(votes + [v]) == KeysOf(votes) + [v.key];
    FirstSeenStep(KeysOf(votes), v.key);
  }

  lemma ScoredOne<K(!new)>(votes: seq<Vote<K>>, scores: map<K, real>, v: Vote<K>)
    requires forall x :: x in scores <==> x in FirstSeen(KeysOf(votes))
    requires forall x :: x in scores ==> scores[x] == Score(votes, x)
    ensures var after := scores[v.key := (if v.key in scores then scores[v.key] else 0.0) + v.weight];
      forall x :: x in after ==> after[x] == Score(votes + [v], x)
  {
    if v.key !in scores {
      FirstSeenIsDistinct(KeysOf(votes));
      UnseenScoresNothing(votes, v.key);
    }
    forall x ensures Score(votes + [v], x) == Score(votes, x) + (if v.key == x then v.weight else 0.0) {
      ScoreStep(votes, v, x);
    }
  }

  /** One pass of the inner loop. */
  method TallyVote<K(==,!new)>(key: K, weight: real, scores0: map<K, real>, firstSeen0: map<K, nat>, order0: nat,
                               ghost votes: seq<Vote<K>>)
    returns (scores: map<K, real>, firstSeen: map<K, nat>, order: nat)
    requires Tallied(votes, scores0, firstSeen0) && order0 == |FirstSeen(KeysOf(votes))|
    ensures Tallied(votes + [Vote(key, weight)], scores, firstSeen)
    ensures order == |FirstSeen(KeysOf(votes + [Vote(key, weight)]))|
  {
    ghost var v := Vote(key, weight);
    SeenStep(votes, v);
    TallyOne(votes, scores0, firstSeen0, v);
    scores := scores0[key := (if key in scores0 then scores0[key] else 0.0) + weight];
    firstSeen, order := firstSeen0, order0;
    if key !in firstSeen {
      firstSeen := firstSeen[key := order];
      order := order + 1;
    }
  }

  /** One pass of the outer loop. */
  method TallyList<K(==,!new)>(ranking: seq<K>, k: nat, scores0: map<K, real>, firstSeen0: map<K, nat>, order0: nat,
                               ghost votes: seq<Vote<K>>)
    returns (scores: map<K, real>, firstSeen: map<K, nat>, order: nat)
    requires Tallied(votes, scores0, firstSeen0) && order0 == |FirstSeen(KeysOf(votes))|
    ensures Tallied(votes + VotesOf(ranking, k), scores, firstSeen)
    ensures order == |FirstSeen(KeysOf(votes + VotesOf(ranking, k)))|
  {
    scores, firstSeen, order := scores0, firstSeen0, order0;
    ghost var list := VotesOf(ranking, k);
    ghost var counted := votes;
    assert counted == votes + list[..0];
    for position := 0 to |ranking|
      invariant counted == votes + list[..position]
      invariant Tallied(counted, scores, firstSeen)
      invariant order == |FirstSeen(KeysOf(counted))|
    {
      TakeOneMore(votes, list, position);
      scores, firstSeen, order :=
        TallyVote(ranking[position], Weight(k, position), scores, firstSeen, order, counted);
      counted := counted + [list[position]];
    }
    assert list[..|ranking|] == list;
  }

  method Tally<K(==,!new)>(rankings: seq<seq<K>>, k: nat)
    returns (scores: map<K, real>, firstSeen: map<K, nat>)
    ensures Tallied(Votes(rankings, k), scores, firstSeen)
  {
    scores, firstSeen := map[], map[];
    var order := 0;
    assert KeysOf<K>([]) == [];
    for n := 0 to |rankings|
      invariant Tallied(Votes(rankings[..n], k), scores, firstSeen)
      invariant 0 <= order == |FirstSeen(KeysOf(Votes(rankings[..n], k)))|
    {
      VotesStep(rankings, k, n);
      scores, firstSeen, order := TallyList(rankings[n], k, scores, firstSeen, order, Votes(rankings[..n], k));
    }
    assert rankings[..|rankings|] == rankings;
  }

  // ---------- The sort ----------

  predicate Ahead<K(==,!new)>(firstSeen: map<K, nat>, a: Scored<K>, b: Scored<K>)
    requires a.key in firstSeen && b.key in firstSeen
  {
    a.score > b.score || (a.score == b.score && firstSeen[a.key] < firstSeen[b.key])
  }

  ghost predicate Known<K(!new)>(items: seq<Scored<K>>, firstSeen: map<K, nat>) {
    forall i :: 0 <= i < |items| ==> items[i].key in firstSeen
  }

  function InsertItem<K(==,!new)>(firstSeen: map<K, nat>, item: Scored<K>, sorted: seq<Scored<K>>): (r: seq<Scored<K>>)
    requires item.key in firstSeen && Known(sorted, firstSeen)
    ensures |r| == |sorted| + 1 && forall x :: x in r <==> x == item || x in sorted
  {
    if sorted == [] || Ahead(firstSeen, item, sorted[0]) then [item] + sorted
    else
      assert forall x :: x in sorted <==> x == sorted[0] || x in sorted[1..];
      [sorted[0]] + InsertItem(firstSeen, item, sorted[1..])
  }

  function SortItems<K(==,!new)>(firstSeen: map<K, nat>, items: seq<Scored<K>>): (r: seq<Scored<K>>)
    requires Known(items, firstSeen)
    ensures |r| == |items| && forall x :: x in r <==> x in items
  {
    if items == [] then []
    else
      var rest := SortItems(firstSeen, items[1..]);
      assert forall x :: x in items <==> x == items[0] || x in items[1..];
      assert forall i :: 0 <= i < |rest| ==> rest[i] in rest;
      InsertItem(firstSeen, items[0], rest)
  }

  ghost predicate Ordered<K(!new)>(firstSeen: map<K, nat>, items: seq<Scored<K>>)
    requires Known(items, firstSeen)
  {
    forall i, j :: 0 <= i < j < |items| ==> Ahead(firstSeen, items[i], items[j])
  }

  ghost predicate Separate<K(!new)>(firstSeen: map<K, nat>, a: Scored<K>, b: Scored<K>)
    requires a.key in firstSeen && b.key in firstSeen
  {
    firstSeen[a.key] != firstSeen[b.key]
  }

  lemma {:induction false} InsertKeepsOrder<K(!new)>(firstSeen: map<K, nat>, item: Scored<K>, sorted: seq<Scored<K>>)
    requires item.key in firstSeen && Known(sorted, firstSeen) && Ordered(firstSeen, sorted)
    requires forall x :: x in sorted ==> x.key in firstSeen && Separate(firstSeen, item, x)
    ensures Known(InsertItem(firstSeen, item, sorted), firstSeen)
    ensures Ordered(firstSeen, InsertItem(firstSeen, item, sorted))
  {
    var r := InsertItem(firstSeen, item, sorted);
    assert forall i :: 0 <= i < |r| ==> r[i] in r;
    if sorted != [] && !Ahead(firstSeen, item, sorted[0]) {
      assert sorted[0] in sorted;
      InsertKeepsOrder(firstSeen, item, sorted[1..]);
      var tail := InsertItem(firstSeen, item, sorted[1..]);
      forall j | 0 <= j < |tail| ensures Ahead(firstSeen, sorted[0], tail[j]) {
        assert tail[j] in tail;
      }
    }
  }

  lemma {:induction false} SortIsOrdered<K(!new)>(firstSeen: map<K, nat>, items: seq<Scored<K>>)
    requires Known(items, firstSeen)
    requires forall i, j :: 0 <= i < j < |items| ==> firstSeen[items[i].key] != firstSeen[items[j].key]
    ensures Known(SortItems(firstSeen, items), firstSeen) && Ordered(firstSeen, SortItems(firstSeen, items))
  {
    if items != [] {
      SortIsOrdered(firstSeen, items[1..]);
      var rest := SortItems(firstSeen, items[1..]);
      forall x | x in rest ensures x.key in firstSeen && Separate(firstSeen, items[0], x) {
        var j :| 0 <= j < |items[1..]| && items[1..][j] == x;
        assert items[j + 1] == x;
      }
      InsertKeepsOrder(firstSeen, items[0], rest);
    }
  }

  // ---------- The fusion ----------

  function Items<K(==,!new)>(keys: seq<K>, scores: map<K, real>): (r: seq<Scored<K>>)
    requires forall i :: 0 <= i < |keys| ==> keys[i] in scores
    ensures |r| == |keys|
    ensures forall i :: 0 <= i < |keys| ==> r[i] == Scored(keys[i], scores[keys[i]])
  {
    seq(|keys|, i requires 0 <= i < |keys| && keys[i] in scores => Scored(keys[i], scores[keys[i]]))
  }

  lemma {:induction false} SeenBefore<K(!new)>(keys: seq<K>, a: K, b: K)
    requires a in keys && b in keys
    ensures a in FirstSeen(keys) && b in FirstSeen(keys)
    ensures IndexOf(FirstSeen(keys), a) < IndexOf(FirstSeen(keys), b) <==> IndexOf(keys, a) < IndexOf(keys, b)
  {
    FirstSeenIsDistinct(keys);
    var init, last := keys[..|keys| - 1], keys[|keys| - 1];
    assert keys == init + [last];
    FirstSeenIsDistinct(init);
    forall x | x in init ensures IndexOf(keys, x) == IndexOf(init, x) && IndexOf(FirstSeen(keys), x) == IndexOf(FirstSeen(init), x) {
      IndexInFront(init, [last], x);
      if last !in FirstSeen(init) { IndexInFront(FirstSeen(init), [last], x); }
    }
    if a in init && b in init {
      SeenBefore(init, a, b);
    }
  }

  lemma IndexInFront<K(!new)>(s: seq<K>, more: seq<K>, x: K)
    requires x in s
    ensures IndexOf(s + more, x) == IndexOf(s, x)
  {
    var i, j := IndexOf(s, x), IndexOf(s + more, x);
    assert (s + more)[i] == x;
  }

  /** The sorted items hold every key once, with its tally. */
  lemma SortedIsUnion<K(!new)>(votes: seq<Vote<K>>, scores: map<K, real>, firstSeen: map<K, nat>)
    requires Tallied(votes, scores, firstSeen)
    ensures var seen := FirstSeen(KeysOf(votes));
      var fused := SortItems(firstSeen, Items(seen, scores));
      && |fused| == |seen|
      && (forall i :: 0 <= i < |fused| ==> fused[i].key in KeysOf(votes) && fused[i].score == Score(votes, fused[i].key))
      && (forall x :: x in KeysOf(votes) ==> exists i :: 0 <= i < |fused| && fused[i].key == x)
  {
    var seen := FirstSeen(KeysOf(votes));
    FirstSeenIsDistinct(KeysOf(votes));
    var items := Items(seen, scores);
    var fused := SortItems(firstSeen, items);
    forall i | 0 <= i < |fused| ensures fused[i].key in KeysOf(votes) && fused[i].score == Score(votes, fused[i].key) {
      assert fused[i] in fused && fused[i] in items;
    }
    forall x | x in KeysOf(votes) ensures exists i :: 0 <= i < |fused| && fused[i].key == x {
      var j :| 0 <= j < |seen| && seen[j] == x;
      assert items[j] in items && items[j] in fused;
    }
  }

  /** Two sorted items stand in the order of the fusion, whatever their keys. */
  lemma SortedIsRanked<K(!new)>(votes: seq<Vote<K>>, scores: map<K, real>, firstSeen: map<K, nat>, a: Scored<K>, b: Scored<K>)
    requires Tallied(votes, scores, firstSeen) && a.key in KeysOf(votes) && b.key in KeysOf(votes)
    requires a.key in firstSeen && b.key in firstSeen && Ahead(firstSeen, a, b)
    ensures Precedes(KeysOf(votes), a, b)
    ensures a.score == Score(votes, a.key) && b.score == Score(votes, b.key) ==> a.key != b.key
  {
    var seen := FirstSeen(KeysOf(votes));
    FirstSeenIsDistinct(KeysOf(votes));
    FirstSeenIndex(seen, firstSeen, a.key);
    FirstSeenIndex(seen, firstSeen, b.key);
    SeenBefore(KeysOf(votes), a.key, b.key);
  }

  lemma TalliedIsFusion<K(!new)>(rankings: seq<seq<K>>, k: nat, scores: map<K, real>, firstSeen: map<K, nat>)
    requires Tallied(Votes(rankings, k), scores, firstSeen)
    ensures var seen := FirstSeen(KeysOf(Votes(rankings, k)));
      Known(Items(seen, scores), firstSeen) && IsFusion(SortItems(firstSeen, Items(seen, scores)), rankings, k)
  {
    var votes := Votes(rankings, k);
    var seen := FirstSeen(KeysOf(votes));
    FirstSeenIsDistinct(KeysOf(votes));
    var items := Items(seen, scores);
    SortIsOrdered(firstSeen, items);
    SortedIsUnion(votes, scores, firstSeen);
    var fused := SortItems(firstSeen, items);
    forall i, j | 0 <= i < j < |fused| ensures Precedes(KeysOf(votes), fused[i], fused[j]) && fused[i].key != fused[j].key {
      SortedIsRanked(votes, scores, firstSeen, fused[i], fused[j]);
    }
  }

  lemma FirstSeenIndex<K(!new)>(seen: seq<K>, firstSeen: map<K, nat>, x: K)
    requires x in seen && Distinct(seen)
    requires forall i :: 0 <= i < |seen| ==> seen[i] in firstSeen && firstSeen[seen[i]] == i
    ensures firstSeen[x] == IndexOf(seen, x)
  {
  }

  /** Fuses ranked lists by reciprocal rank. */
  method ReciprocalRankFusion<K(==,!new)>(rankings: seq<seq<K>>, k: nat := RRF_K) returns (fused: seq<Scored<K>>)
    ensures IsFusion(fused, rankings, k)
  {
    var scores, firstSeen := Tally(rankings, k);
    var seen := CollectFirstSeen(KeysOf(Votes(rankings, k)));
    TalliedIsFusion(rankings, k, scores, firstSeen);
    fused := SortItems(firstSeen, Items(seen, scores));
  }

  // ---------- Domination ----------

  lemma {:induction false} ScoreConcat<K(!new)>(a: seq<Vote<K>>, b: seq<Vote<K>>, key: K)
    ensures Score(a + b, key) == Score(a, key) + Score(b, key)
  {
    if b == [] {
      assert a + b == a;
    } else {
      assert (a + b)[..|a + b| - 1] == a + b[..|b| - 1];
      ScoreConcat(a, b[..|b| - 1], key);
    }
  }

  /** In a list without duplicates a ranked key scores the weight of its one position. */
  lemma {:induction false} ScoreInList<K(!new)>(ranking: seq<K>, k: nat, n: nat, key: K)
    requires Distinct(ranking) && n <= |ranking|
    ensures Score(VotesOf(ranking, k)[..n], key) ==
            if key in ranking && IndexOf(ranking, key) < n then Weight(k, IndexOf(ranking, key)) else 0.0
  {
    if n > 0 {
      ScoreInList(ranking, k, n - 1, key);
      assert VotesOf(ranking, k)[..n][..n - 1] == VotesOf(ranking, k)[..n - 1];
    }
  }

  lemma ReciprocalFalls(a: real, b: real)
    requires 0.0 < a < b
    ensures 1.0 / a > 1.0 / b > 0.0
  {
    var x, y := 1.0 / a, 1.0 / b;
    assert x * a == 1.0 && y * b == 1.0;
    assert y > 0.0;
    assert (x - y) * a == y * (b - a);
    assert y * (b - a) > 0.0;
    assert x - y > 0.0;
  }

  lemma WeightFalls(k: nat, p: nat, q: nat)
    requires p < q
    ensures Weight(k, p) > Weight(k, q) > 0.0
  {
    ReciprocalFalls((k + p + 1) as real, (k + q + 1) as real);
  }

  /** `a` is ranked ahead of `b` in every list that ranks `b`. */
  ghost predicate Dominates<K(!new)>(rankings: seq<seq<K>>, a: K, b: K) {
    forall i :: 0 <= i < |rankings| && b in rankings[i] ==>
      a in rankings[i] && IndexOf(rankings[i], a) < IndexOf(rankings[i], b)
  }

  lemma {:induction false} DominatorScoresMore<K(!new)>(rankings: seq<seq<K>>, k: nat, a: K, b: K)
    requires Dominates(rankings, a, b) && forall i :: 0 <= i < |rankings| ==> Distinct(rankings[i])
    ensures Score(Votes(rankings, k), a) >= Score(Votes(rankings, k), b)
    ensures b in KeysOf(Votes(rankings, k)) ==>
      a in KeysOf(Votes(rankings, k)) && Score(Votes(rankings, k), a) > Score(Votes(rankings, k), b)
  {
    if rankings != [] {
      var init, last := rankings[..|rankings| - 1], rankings[|rankings| - 1];
      DominatorScoresMore(init, k, a, b);
      var votes := VotesOf(last, k);
      ScoreConcat(Votes(init, k), votes, a);
      ScoreConcat(Votes(init, k), votes, b);
      assert votes[..|votes|] == votes;
      ScoreInList(last, k, |last|, a);
      ScoreInList(last, k, |last|, b);
      if a in last { WeightFalls(k, IndexOf(last, a), IndexOf(last, a) + 1); }
      KeysConcat(Votes(init, k), votes);
      KeysOfList(last, k);
      if b in last { WeightFalls(k, IndexOf(last, a), IndexOf(last, b)); }
    }
  }

  lemma KeysConcat<K(!new)>(a: seq<Vote<K>>, b: seq<Vote<K>>)
    ensures KeysOf(a + b) == KeysOf(a) + KeysOf(b)
  {
  }

  lemma KeysOfList<K(!new)>(ranking: seq<K>, k: nat)
    ensures KeysOf(VotesOf(ranking, k)) == ranking
  {
  }

  /** The sum, over the lists that rank the key, of one over `k` and its rank, which counts from one. */
  function ReciprocalRanks<K(==)>(rankings: seq<seq<K>>, k: nat, key: K): real {
    if rankings == [] then 0.0
    else
      var last := rankings[|rankings| - 1];
      ReciprocalRanks(rankings[..|rankings| - 1], k, key) +
      (if key in last then 1.0 / (k as real + IndexOf(last, key) as real + 1.0) else 0.0)
  }

  lemma {:induction false} ScoreIsReciprocalRanks<K(!new)>(rankings: seq<seq<K>>, k: nat, key: K)
    requires forall n :: 0 <= n < |rankings| ==> Distinct(rankings[n])
    ensures Score(Votes(rankings, k), key) == ReciprocalRanks(rankings, k, key)
  {
    if rankings != [] {
      var init, last := rankings[..|rankings| - 1], rankings[|rankings| - 1];
      var votes := VotesOf(last, k);
      ScoreIsReciprocalRanks(init, k, key);
      ScoreConcat(Votes(init, k), votes, key);
      assert votes[..|votes|] == votes;
      ScoreInList(last, k, |last|, key);
    }
  }

  /** Over lists without duplicates the fused score of a key is its sum of reciprocal ranks. */
  lemma FusedScoreIs<K(!new)>(fused: seq<Scored<K>>, rankings: seq<seq<K>>, k: nat, i: nat)
    requires IsFusion(fused, rankings, k) && i < |fused| && forall n :: 0 <= n < |rankings| ==> Distinct(rankings[n])
    ensures fused[i].score == ReciprocalRanks(rankings, k, fused[i].key)
  {
    ScoreIsReciprocalRanks(rankings, k, fused[i].key);
  }

  /** A key ranked ahead of another in every list that ranks the latter comes strictly first. */
  lemma DominatorComesFirst<K(!new)>(fused: seq<Scored<K>>, rankings: seq<seq<K>>, k: nat, a: K, b: K)
    returns (i: nat, j: nat)
    requires IsFusion(fused, rankings, k) && Dominates(rankings, a, b)
    requires forall n :: 0 <= n < |rankings| ==> Distinct(rankings[n])
    requires b in KeysOf(Votes(rankings, k))
    ensures i < j < |fused| && fused[i].key == a && fused[j].key == b
  {
    DominatorScoresMore(rankings, k, a, b);
    i := PlaceOf(fused, rankings, k, a);
    j := PlaceOf(fused, rankings, k, b);
    HigherScoreIsAhead(fused, KeysOf(Votes(rankings, k)), i, j);
  }

  lemma PlaceOf<K(!new)>(fused: seq<Scored<K>>, rankings: seq<seq<K>>, k: nat, x: K) returns (i: nat)
    requires IsFusion(fused, rankings, k) && x in KeysOf(Votes(rankings, k))
    ensures i < |fused| && fused[i].key == x && fused[i].score == Score(Votes(rankings, k), x)
  {
    i :| 0 <= i < |fused| && fused[i].key == x;
  }

  lemma HigherScoreIsAhead<K(!new)>(fused: seq<Scored<K>>, keys: seq<K>, i: nat, j: nat)
    requires IsUnion(fused, keys) && IsRanked(fused, keys)
    requires i < |fused| && j < |fused| && fused[i].score > fused[j].score
    ensures i < j
  {
  }

  // ---------- Hybrid retrieval ----------

  lemma KeysOfTwo<K(!new)>(a: seq<K>, b: seq<K>, k: nat)
    ensures KeysOf(Votes([a, b], k)) == a + b
  {
    assert [a, b][..1] == [a] && [a][..0] == [];
    assert Votes([a], k) == Votes([], k) + VotesOf(a, k) == VotesOf(a, k);
    KeysConcat(VotesOf(a, k), VotesOf(b, k));
    KeysOfList(a, k);
    KeysOfList(b, k);
  }

  /** The first block of the list under the key. */
  ghost predicate FirstUnder(blocks: seq<RetrievedBlock>, key: BlockRef, b: RetrievedBlock) {
    exists i :: 0 <= i < |blocks| && blocks[i] == b && KeyOf(b) == key && forall j :: 0 <= j < i ==> KeyOf(blocks[j]) != key
  }

  /** `setdefault` over the blocks in order: the first block under each key. */
  method BlocksByKey(blocks: seq<RetrievedBlock>) returns (byKey: map<BlockRef, RetrievedBlock>)
    ensures forall i :: 0 <= i < |blocks| ==> KeyOf(blocks[i]) in byKey
    ensures forall key :: key in byKey ==> FirstUnder(blocks, key, byKey[key])
  {
    byKey := map[];
    for n := 0 to |blocks|
      invariant forall i :: 0 <= i < n ==> KeyOf(blocks[i]) in byKey
      invariant forall key :: key in byKey ==> FirstUnder(blocks, key, byKey[key])
      invariant forall key :: key in byKey ==> exists i :: 0 <= i < n && KeyOf(blocks[i]) == key
    {
      if KeyOf(blocks[n]) !in byKey {
        byKey := byKey[KeyOf(blocks[n]) := blocks[n]];
      }
    }
  }

  /**
    The evidence is the first blocks of the fusion of the two rankings: every key is found among the
    blocks retrieved, and none is repeated.
  */
  method HybridEvidence(dense: seq<RetrievedBlock>, lexical: seq<RetrievedBlock>, topK: nat := EVIDENCE_TOP_K)
    returns (evidence: seq<RetrievedBlock>, fused: seq<Scored<BlockRef>>)
    ensures IsFusion(fused, [Refs(dense), Refs(lexical)], 60)
    ensures |evidence| == if topK <= |fused| then topK else |fused|
    ensures forall i :: 0 <= i < |evidence| ==> FirstUnder(dense + lexical, fused[i].key, evidence[i])
    ensures forall i, j :: 0 <= i < j < |evidence| ==> KeyOf(evidence[i]) != KeyOf(evidence[j])
  {
    fused := ReciprocalRankFusion([Refs(dense), Refs(lexical)]);
    var byKey := BlocksByKey(dense + lexical);
    var n := if topK <= |fused| then topK else |fused|;
    FusedKeysWereRetrieved(fused, dense, lexical);
    UnionIsFound(fused, dense + lexical, byKey);
    evidence := seq(n, i requires 0 <= i < n && fused[i].key in byKey => byKey[fused[i].key]);
  }

  lemma RefsConcat(a: seq<RetrievedBlock>, b: seq<RetrievedBlock>)
    ensures Refs(a) + Refs(b) == Refs(a + b)
  {
  }

  lemma FusedKeysWereRetrieved(fused: seq<Scored<BlockRef>>, dense: seq<RetrievedBlock>, lexical: seq<RetrievedBlock>)
    requires IsFusion(fused, [Refs(dense), Refs(lexical)], RRF_K)
    ensures IsUnion(fused, Refs(dense + lexical))
  {
    KeysOfTwo(Refs(dense), Refs(lexical), RRF_K);
    RefsConcat(dense, lexical);
  }

  lemma UnionIsFound(fused: seq<Scored<BlockRef>>, blocks: seq<RetrievedBlock>, byKey: map<BlockRef, RetrievedBlock>)
    requires IsUnion(fused, Refs(blocks))
    requires forall i :: 0 <= i < |blocks| ==> KeyOf(blocks[i]) in byKey
    ensures forall i :: 0 <= i < |fused| ==> fused[i].key in byKey
  {
    forall i | 0 <= i < |fused| ensures fused[i].key in byKey {
      var m :| 0 <= m < |Refs(blocks)| && Refs(blocks)[m] == fused[i].key;
    }
  }
}
