/**
  Deterministic notices about how far the answer's law is from today's law.

  A notice keeps its code, the block it names and the date its message spells; the wording around
  them is not part of this model. `yearEnd` gives the last day of a date's year.
*/
module Notices {
  import opened Wrappers
  import opened BlockRefs
  import opened Corpus

  const RECENT_AMENDMENT_WINDOW := 365

  datatype DatePrecision = DAY | YEAR | NONE

  datatype TargetDate = TargetDate(value: Date, precision: DatePrecision)

  datatype NoticeCode = HISTORICAL_TARGET_DATE | AMBIGUOUS_TARGET_YEAR | SUPERSEDED_REDACTION | RECENT_AMENDMENT

  datatype InForceNotice = InForceNotice(code: NoticeCode, blockRef: Option<string>, date: Date)

  datatype CitedBlock = CitedBlock(ref: BlockRef, title: string, effectiveDate: Date)

  // ---------- The version history ----------

  function InsertDate(d: Date, dates: seq<Date>): seq<Date> {
    if dates == [] || d <= dates[0] then [d] + dates else [dates[0]] + InsertDate(d, dates[1..])
  }

  function SortedDates(versions: seq<Version>): seq<Date> {
    if versions == [] then [] else InsertDate(versions[0].effectiveDate, SortedDates(versions[1..]))
  }

  /** The effective dates of every stored redaction of a block, oldest first. */
  function EffectiveDates(store: Store, ref: BlockRef): seq<Date> {
    if ref in store then SortedDates(store[ref].versions) else []
  }

  function Between(dates: seq<Date>, after: Date, until: Date): seq<Date> {
    if dates == [] then [] else (if after < dates[0] <= until then [dates[0]] else []) + Between(dates[1..], after, until)
  }

  function Earliest(dates: seq<Date>): (d: Date)
    requires dates != []
    ensures d in dates && forall i :: 0 <= i < |dates| ==> d <= dates[i]
  {
    if |dates| == 1 then dates[0]
    else
      var d := Earliest(dates[1..]);
      assert forall i :: 0 < i < |dates| ==> dates[i] == dates[1..][i - 1];
      if dates[0] < d then dates[0] else d
  }

  /** The dates at which the cited block came into force anew in `(after, until]`. */
  function AmendmentsBetween(store: Store, c: CitedBlock, after: Date, until: Date): seq<Date> {
    Between(EffectiveDates(store, c.ref), after, until)
  }

  // ---------- The rules ----------

  predicate Cites(citations: seq<CitedBlock>, ref: BlockRef) {
    exists i :: 0 <= i < |citations| && citations[i].ref == ref
  }

  /** The cited blocks in first-seen order, one entry per block. */
  function FirstPerBlock(citations: seq<CitedBlock>): (r: seq<CitedBlock>)
    decreases |citations|
  {
    if citations == [] then [] else
      var earlier := FirstPerBlock(citations[..|citations| - 1]);
      var last := citations[|citations| - 1];
      if Cites(earlier, last.ref) then earlier else earlier + [last]
  }

  function AmendmentNotice(store: Store, code: NoticeCode, c: CitedBlock,
                           after: CitedBlock -> Date, until: Date): seq<InForceNotice>
  {
    var amendments := AmendmentsBetween(store, c, after(c), until);
    if amendments == [] then [] else [InForceNotice(code, Some(Print(c.ref)), Earliest(amendments))]
  }

  /** One notice per citation amended in `(after(c), until]`, naming its first amendment there. */
  function AmendmentNotices(store: Store, code: NoticeCode, citations: seq<CitedBlock>,
                            after: CitedBlock -> Date, until: Date): seq<InForceNotice>
    decreases |citations|
  {
    if citations == [] then [] else
      AmendmentNotices(store, code, citations[..|citations| - 1], after, until) +
      AmendmentNotice(store, code, citations[|citations| - 1], after, until)
  }

  function AmbiguousYearNotices(store: Store, citations: seq<CitedBlock>, target: TargetDate,
                                yearEnd: Date -> Date): seq<InForceNotice>
  {
    if target.precision != YEAR then []
    else AmendmentNotices(store, AMBIGUOUS_TARGET_YEAR, citations, c => target.value, yearEnd(target.value))
  }

  function SupersededNotices(store: Store, citations: seq<CitedBlock>, today: Date): seq<InForceNotice> {
    AmendmentNotices(store, SUPERSEDED_REDACTION, citations, (c: CitedBlock) => c.effectiveDate, today)
  }

  function RecentAmendmentNotices(citations: seq<CitedBlock>, anchor: Date): seq<InForceNotice> {
    if citations == [] then [] else
      (if anchor - RECENT_AMENDMENT_WINDOW <= citations[0].effectiveDate <= anchor
       then [InForceNotice(RECENT_AMENDMENT, Some(Print(citations[0].ref)), citations[0].effectiveDate)] else [])
      + RecentAmendmentNotices(citations[1..], anchor)
  }

  function BuildNotices(store: Store, citations: seq<CitedBlock>, target: TargetDate, today: Date,
                        yearEnd: Date -> Date): seq<InForceNotice>
  {
    var unique := FirstPerBlock(citations);
    (if target.value < today then [InForceNotice(HISTORICAL_TARGET_DATE, None, target.value)] else [])
    + AmbiguousYearNotices(store, unique, target, yearEnd)
    + SupersededNotices(store, unique, today)
    + RecentAmendmentNotices(unique, target.value)
  }

  // ---------- The code ----------

  method Deduplicate(citations: seq<CitedBlock>) returns (unique: seq<CitedBlock>)
    ensures unique == FirstPerBlock(citations)
  {
    unique := [];
    for n := 0 to |citations|
      invariant unique == FirstPerBlock(citations[..n])
    {
      assert citations[..n + 1][..n] == citations[..n] && citations[..n + 1][n] == citations[n];
      if !Cites(unique, citations[n].ref) {
        unique := unique + [citations[n]];
      }
    }
    assert citations[..|citations|] == citations;
  }

  method CollectAmendmentNotices(store: Store, code: NoticeCode, citations: seq<CitedBlock>,
                                 after: CitedBlock -> Date, until: Date)
    returns (notices: seq<InForceNotice>)
    ensures notices == AmendmentNotices(store, code, citations, after, until)
  {
    notices := [];
    for n := 0 to |citations|
      invariant notices == AmendmentNotices(store, code, citations[..n], after, until)
    {
      var c := citations[n];
      AmendmentNoticesStep(store, code, citations, after, until, n);
      var amendments := AmendmentsBetween(store, c, after(c), until);
      if amendments == [] { continue; }
      notices := notices + [InForceNotice(code, Some(Print(c.ref)), Earliest(amendments))];
    }
    assert citations[..|citations|] == citations;
  }

  lemma AmendmentNoticesStep(store: Store, code: NoticeCode, citations: seq<CitedBlock>,
                             after: CitedBlock -> Date, until: Date, n: nat)
    requires n < |citations|
    ensures AmendmentNotices(store, code, citations[..n + 1], after, until) ==
            AmendmentNotices(store, code, citations[..n], after, until) +
            AmendmentNotice(store, code, citations[n], after, until)
  {
    assert citations[..n + 1][..n] == citations[..n] && citations[..n + 1][n] == citations[n];
  }

  method DeriveNotices(store: Store, citations: seq<CitedBlock>, target: TargetDate, today: Date,
                       yearEnd: Date -> Date)
    returns (notices: seq<InForceNotice>)
    ensures notices == BuildNotices(store, citations, target, today, yearEnd)
  {
    notices := [];
    if target.value < today {
      notices := notices + [InForceNotice(HISTORICAL_TARGET_DATE, None, target.value)];
    }
    var unique := Deduplicate(citations);
    var ambiguous: seq<InForceNotice> := [];
    if target.precision == YEAR {
      ambiguous := CollectAmendmentNotices(store, AMBIGUOUS_TARGET_YEAR, unique, c => target.value, yearEnd(target.value));
    }
    var superseded := CollectAmendmentNotices(store, SUPERSEDED_REDACTION, unique, (c: CitedBlock) => c.effectiveDate, today);
    assert ambiguous == AmbiguousYearNotices(store, unique, target, yearEnd);
    assert superseded == SupersededNotices(store, unique, today);
    assert notices == if target.value < today then [InForceNotice(HISTORICAL_TARGET_DATE, None, target.value)] else [];
    notices := notices + ambiguous + superseded + RecentAmendmentNotices(unique, target.value);
  }

  // ---------- What the rules mean ----------

  lemma {:induction false} InsertedDates(d: Date, dates: seq<Date>, x: Date)
    ensures x in InsertDate(d, dates) <==> x == d || x in dates
  {
    if dates != [] && d > dates[0] {
      InsertedDates(d, dates[1..], x);
    }
  }

  lemma {:induction false} SortedDatesAreTheDates(versions: seq<Version>, x: Date)
    ensures x in SortedDates(versions) <==> exists v :: v in versions && v.effectiveDate == x
  {
    if versions != [] {
      SortedDatesAreTheDates(versions[1..], x);
      InsertedDates(versions[0].effectiveDate, SortedDates(versions[1..]), x);
      assert forall v :: v in versions <==> v == versions[0] || v in versions[1..];
    }
  }

  lemma {:induction false} BetweenDates(dates: seq<Date>, after: Date, until: Date, x: Date)
    ensures x in Between(dates, after, until) <==> x in dates && after < x <= until
  {
    if dates != [] { BetweenDates(dates[1..], after, until, x); }
  }

  /** A block was amended since the redaction in force at `target` exactly when another is in force today. */
  lemma AmendedIffSuperseded(store: Store, c: CitedBlock, target: Date, today: Date)
    requires target <= today && c.ref in store && DistinctDates(store[c.ref].versions)
    requires InForce(store[c.ref].versions, target).Some?
    requires c.effectiveDate == InForce(store[c.ref].versions, target).value.effectiveDate
    ensures AmendmentsBetween(store, c, c.effectiveDate, today) != [] <==>
            InForce(store[c.ref].versions, today) != InForce(store[c.ref].versions, target)
  {
    var versions := store[c.ref].versions;
    var dates := SortedDates(versions);
    InForceIsLatest(versions, target);
    InForceIsLatest(versions, today);
    var then_, now := InForce(versions, target).value, InForce(versions, today).value;
    var amendments := AmendmentsBetween(store, c, c.effectiveDate, today);
    if amendments != [] {
      var x := amendments[0];
      BetweenDates(dates, c.effectiveDate, today, x);
      SortedDatesAreTheDates(versions, x);
    }
    if now != then_ {
      var i :| 0 <= i < |versions| && versions[i] == then_;
      var j :| 0 <= j < |versions| && versions[j] == now;
      assert versions[i].effectiveDate != versions[j].effectiveDate;
      SortedDatesAreTheDates(versions, now.effectiveDate);
      BetweenDates(dates, c.effectiveDate, today, now.effectiveDate);
    }
  }

  ghost predicate DistinctBlocks(citations: seq<CitedBlock>) {
    forall i, j :: 0 <= i < j < |citations| ==> citations[i].ref != citations[j].ref
  }

  lemma {:induction false} FirstPerBlockIsDistinct(citations: seq<CitedBlock>)
    ensures DistinctBlocks(FirstPerBlock(citations))
    ensures forall c :: c in FirstPerBlock(citations) ==> c in citations
    decreases |citations|
  {
    if citations != [] {
      FirstPerBlockIsDistinct(citations[..|citations| - 1]);
    }
  }

  lemma {:induction false} FirstPerBlockMissesNone(citations: seq<CitedBlock>, ref: BlockRef)
    ensures Cites(citations, ref) <==> Cites(FirstPerBlock(citations), ref)
    decreases |citations|
  {
    if citations != [] {
      var init, last := citations[..|citations| - 1], citations[|citations| - 1];
      FirstPerBlockMissesNone(init, ref);
      CitesAppend(init, last, ref);
      CitesAppend(FirstPerBlock(init), last, ref);
      assert citations == init + [last];
    }
  }

  lemma CitesAppend(citations: seq<CitedBlock>, last: CitedBlock, ref: BlockRef)
    ensures Cites(citations + [last], ref) <==> Cites(citations, ref) || last.ref == ref
  {
    if Cites(citations, ref) {
      var i :| 0 <= i < |citations| && citations[i].ref == ref;
      assert (citations + [last])[i].ref == ref;
    }
    assert (citations + [last])[|citations|] == last;
  }

  predicate Names(n: InForceNotice, code: NoticeCode, token: string) {
    n.code == code && n.blockRef == Some(token)
  }

  function Count(notices: seq<InForceNotice>, code: NoticeCode, token: string): nat {
    if notices == [] then 0
    else Count(notices[..|notices| - 1], code, token) + (if Names(notices[|notices| - 1], code, token) then 1 else 0)
  }

  lemma {:induction false} CountConcat(a: seq<InForceNotice>, b: seq<InForceNotice>, code: NoticeCode, token: string)
    ensures Count(a + b, code, token) == Count(a, code, token) + Count(b, code, token)
    decreases |b|
  {
    if b == [] {
      assert a + b == a;
    } else {
      assert (a + b)[..|a + b| - 1] == a + b[..|b| - 1];
      CountConcat(a, b[..|b| - 1], code, token);
    }
  }

  /** The cited blocks a token prints that were amended in the window. */
  function AmendedUnder(store: Store, citations: seq<CitedBlock>, after: CitedBlock -> Date, until: Date, token: string): set<BlockRef> {
    set c | c in citations && AmendedOne(store, c, after, until, token) :: c.ref
  }

  /** The notice of one citation names the block it cites and no other. */
  lemma NamesItsBlock(store: Store, code: NoticeCode, c: CitedBlock, after: CitedBlock -> Date, until: Date, token: string)
    ensures Count(AmendmentNotice(store, code, c, after, until), code, token) ==
            if AmendedOne(store, c, after, until, token) then 1 else 0
  {
    var one := AmendmentNotice(store, code, c, after, until);
    if one != [] {
      assert one[..0] == [] && Count([], code, token) == 0;
    }
  }

  predicate AmendedOne(store: Store, c: CitedBlock, after: CitedBlock -> Date, until: Date, token: string) {
    Print(c.ref) == token && AmendmentsBetween(store, c, after(c), until) != []
  }

  lemma LastIsNew(citations: seq<CitedBlock>)
    requires citations != [] && DistinctBlocks(citations)
    ensures forall c :: c in citations[..|citations| - 1] ==> c.ref != citations[|citations| - 1].ref
  {
    var init, last := citations[..|citations| - 1], citations[|citations| - 1];
    forall c | c in init ensures c.ref != last.ref {
      var k :| 0 <= k < |init| && init[k] == c;
      assert citations[k].ref != citations[|init|].ref;
    }
  }

  lemma AmendedStep(store: Store, init: seq<CitedBlock>, last: CitedBlock, after: CitedBlock -> Date, until: Date, token: string)
    requires forall c :: c in init ==> c.ref != last.ref
    ensures |AmendedUnder(store, init + [last], after, until, token)| ==
            |AmendedUnder(store, init, after, until, token)| + if AmendedOne(store, last, after, until, token) then 1 else 0
  {
    var more, less := AmendedUnder(store, init + [last], after, until, token), AmendedUnder(store, init, after, until, token);
    assert last.ref !in less;
    assert more == if AmendedOne(store, last, after, until, token) then less + {last.ref} else less;
  }

  lemma NamedStep(store: Store, code: NoticeCode, init: seq<CitedBlock>, last: CitedBlock, citations: seq<CitedBlock>,
                  after: CitedBlock -> Date, until: Date, token: string)
    requires citations == init + [last] && forall c :: c in init ==> c.ref != last.ref
    requires Count(AmendmentNotices(store, code, init, after, until), code, token) == |AmendedUnder(store, init, after, until, token)|
    ensures Count(AmendmentNotices(store, code, citations, after, until), code, token) ==
            |AmendedUnder(store, citations, after, until, token)|
  {
    var before, one := AmendmentNotices(store, code, init, after, until), AmendmentNotice(store, code, last, after, until);
    assert (init + [last])[..|init|] == init;
    assert AmendmentNotices(store, code, init + [last], after, until) == before + one;
    CountConcat(before, one, code, token);
    NamesItsBlock(store, code, last, after, until, token);
    AmendedStep(store, init, last, after, until, token);
  }

  /** Over one citation per block, a token is named once for each amended block it prints. */
  lemma {:induction false} NamedOnceEach(store: Store, code: NoticeCode, citations: seq<CitedBlock>,
                                         after: CitedBlock -> Date, until: Date, token: string)
    requires DistinctBlocks(citations)
    ensures Count(AmendmentNotices(store, code, citations, after, until), code, token) ==
            |AmendedUnder(store, citations, after, until, token)|
    decreases |citations|
  {
    if citations == [] {
      assert AmendedUnder(store, citations, after, until, token) == {};
    } else {
      var init, last := citations[..|citations| - 1], citations[|citations| - 1];
      assert citations == init + [last];
      LastIsNew(citations);
      NamedOnceEach(store, code, init, after, until, token);
      NamedStep(store, code, init, last, citations, after, until, token);
    }
  }

  lemma {:induction false} NoSuperseded(notices: seq<InForceNotice>, token: string)
    requires forall i :: 0 <= i < |notices| ==> notices[i].code != SUPERSEDED_REDACTION
    ensures Count(notices, SUPERSEDED_REDACTION, token) == 0
  {
    if notices != [] { NoSuperseded(notices[..|notices| - 1], token); }
  }

  lemma AmendmentCodes(citations: seq<CitedBlock>, code: NoticeCode, store: Store,
                       after: CitedBlock -> Date, until: Date)
    ensures forall n :: n in AmendmentNotices(store, code, citations, after, until) ==> n.code == code
    decreases |citations|
  {
    if citations != [] { AmendmentCodes(citations[..|citations| - 1], code, store, after, until); }
  }

  lemma RecentCodes(citations: seq<CitedBlock>, anchor: Date)
    ensures forall n :: n in RecentAmendmentNotices(citations, anchor) ==> n.code == RECENT_AMENDMENT
  {
  }

  lemma OnlySupersededCounts(store: Store, citations: seq<CitedBlock>, target: TargetDate, today: Date,
                             yearEnd: Date -> Date, token: string)
    ensures Count(BuildNotices(store, citations, target, today, yearEnd), SUPERSEDED_REDACTION, token) ==
            Count(SupersededNotices(store, FirstPerBlock(citations), today), SUPERSEDED_REDACTION, token)
  {
    var unique := FirstPerBlock(citations);
    var historical := if target.value < today then [InForceNotice(HISTORICAL_TARGET_DATE, None, target.value)] else [];
    var ambiguous := AmbiguousYearNotices(store, unique, target, yearEnd);
    var superseded := SupersededNotices(store, unique, today);
    var recent := RecentAmendmentNotices(unique, target.value);
    AmendmentCodes(unique, AMBIGUOUS_TARGET_YEAR, store, c => target.value, yearEnd(target.value));
    RecentCodes(unique, target.value);
    NoSuperseded(historical, token);
    NoSuperseded(ambiguous, token);
    NoSuperseded(recent, token);
    CountConcat(historical + ambiguous + superseded, recent, SUPERSEDED_REDACTION, token);
    CountConcat(historical + ambiguous, superseded, SUPERSEDED_REDACTION, token);
    CountConcat(historical, ambiguous, SUPERSEDED_REDACTION, token);
  }

  /** A citation resolved at the target date, of a block with one version per date. */
  ghost predicate ResolvedAt(store: Store, c: CitedBlock, target: Date) {
    && c.ref in store && DistinctDates(store[c.ref].versions)
    && InForce(store[c.ref].versions, target).Some?
    && c.effectiveDate == InForce(store[c.ref].versions, target).value.effectiveDate
  }

  predicate Superseded(store: Store, ref: BlockRef, target: Date, today: Date) {
    ref in store && InForce(store[ref].versions, today) != InForce(store[ref].versions, target)
  }

  /** The superseded blocks among the cited ones that a token prints. */
  function SupersededUnder(store: Store, citations: seq<CitedBlock>, target: Date, today: Date, token: string): set<BlockRef> {
    set c | c in citations && Print(c.ref) == token && Superseded(store, c.ref, target, today) :: c.ref
  }

  lemma AmendedAreSuperseded(store: Store, citations: seq<CitedBlock>, target: Date, today: Date, token: string)
    requires target <= today && forall d :: d in citations ==> ResolvedAt(store, d, target)
    ensures AmendedUnder(store, FirstPerBlock(citations), (d: CitedBlock) => d.effectiveDate, today, token) ==
            SupersededUnder(store, citations, target, today, token)
  {
    var unique := FirstPerBlock(citations);
    FirstPerBlockIsDistinct(citations);
    forall d | d in citations
      ensures AmendmentsBetween(store, d, d.effectiveDate, today) != [] <==> Superseded(store, d.ref, target, today)
    {
      AmendedIffSuperseded(store, d, target, today);
    }
    forall d | d in citations ensures exists e :: e in unique && e.ref == d.ref {
      FirstPerBlockMissesNone(citations, d.ref);
      var i :| 0 <= i < |citations| && citations[i] == d;
      var k :| 0 <= k < |unique| && unique[k].ref == d.ref;
      assert unique[k] in unique;
    }
  }

  /**
    A token is named by one superseded-redaction notice for each cited block it prints whose version
    in force today is not the one in force at the target date, however often the block is cited.
  */
  lemma SupersededOncePerBlock(store: Store, citations: seq<CitedBlock>, target: TargetDate, today: Date,
                               yearEnd: Date -> Date, token: string)
    requires target.value <= today && forall d :: d in citations ==> ResolvedAt(store, d, target.value)
    ensures Count(BuildNotices(store, citations, target, today, yearEnd), SUPERSEDED_REDACTION, token) ==
            |SupersededUnder(store, citations, target.value, today, token)|
  {
    FirstPerBlockIsDistinct(citations);
    OnlySupersededCounts(store, citations, target, today, yearEnd, token);
    NamedOnceEach(store, SUPERSEDED_REDACTION, FirstPerBlock(citations), (d: CitedBlock) => d.effectiveDate, today, token);
    AmendedAreSuperseded(store, citations, target.value, today, token);
  }

  /** A token no other cited block shares counts its own block, if that is superseded. */
  lemma OwnTokenCountsOnce(store: Store, citations: seq<CitedBlock>, target: Date, today: Date, c: CitedBlock)
    requires c in citations && c.ref in store
    requires forall d :: d in citations && Print(d.ref) == Print(c.ref) ==> d.ref == c.ref
    ensures |SupersededUnder(store, citations, target, today, Print(c.ref))| ==
            if InForce(store[c.ref].versions, today) != InForce(store[c.ref].versions, target) then 1 else 0
  {
    var one := SupersededUnder(store, citations, target, today, Print(c.ref));
    assert one == if Superseded(store, c.ref, target, today) then {c.ref} else {};
  }

  /** Norm ids without a separator keep the tokens of different blocks apart. */
  lemma TokensAreApart(a: BlockRef, b: BlockRef)
    requires ':' !in a.normId && ':' !in b.normId
    ensures Print(a) == Print(b) <==> a == b
  {
    PartitionJoined(a.normId, a.blockId);
    PartitionJoined(b.normId, b.blockId);
  }

  /** So where norm ids hold none, each cited block's token counts one notice or none. */
  lemma SeparatorFreeCountsOnce(store: Store, citations: seq<CitedBlock>, target: Date, today: Date, c: CitedBlock)
    requires c in citations && c.ref in store && forall d :: d in citations ==> ':' !in d.ref.normId
    ensures |SupersededUnder(store, citations, target, today, Print(c.ref))| ==
            if InForce(store[c.ref].versions, today) != InForce(store[c.ref].versions, target) then 1 else 0
  {
    forall d | d in citations && Print(d.ref) == Print(c.ref) ensures d.ref == c.ref {
      TokensAreApart(d.ref, c.ref);
    }
    OwnTokenCountsOnce(store, citations, target, today, c);
  }

  // ---------- Which notices there are ----------

  /** `d` is the first day in `(after, until]` on which the block came into force anew. */
  ghost predicate FirstAmended(store: Store, ref: BlockRef, after: Date, until: Date, d: Date) {
    && ref in store && after < d <= until
    && (exists v :: v in store[ref].versions && v.effectiveDate == d)
    && (forall v :: v in store[ref].versions && after < v.effectiveDate <= until ==> d <= v.effectiveDate)
  }

  lemma AmendmentsAre(store: Store, c: CitedBlock, after: Date, until: Date, x: Date)
    ensures x in AmendmentsBetween(store, c, after, until) <==>
      && c.ref in store && after < x <= until && exists v :: v in store[c.ref].versions && v.effectiveDate == x
  {
    BetweenDates(EffectiveDates(store, c.ref), after, until, x);
    if c.ref in store { SortedDatesAreTheDates(store[c.ref].versions, x); }
  }

  /** An amendment notice names the block and the first amendment in its window; there is none without one. */
  lemma AmendmentNoticeIs(store: Store, code: NoticeCode, c: CitedBlock, after: CitedBlock -> Date, until: Date, n: InForceNotice)
    ensures n in AmendmentNotice(store, code, c, after, until) <==>
      n.code == code && n.blockRef == Some(Print(c.ref)) && FirstAmended(store, c.ref, after(c), until, n.date)
  {
    var amendments := AmendmentsBetween(store, c, after(c), until);
    forall x ensures x in amendments <==>
      && c.ref in store && after(c) < x <= until && exists v :: v in store[c.ref].versions && v.effectiveDate == x
    {
      AmendmentsAre(store, c, after(c), until, x);
    }
    assert FirstAmended(store, c.ref, after(c), until, n.date) ==> n.date in amendments;
    if amendments != [] {
      var d := Earliest(amendments);
      assert d in amendments;
      forall v | v in store[c.ref].versions && after(c) < v.effectiveDate <= until ensures d <= v.effectiveDate {
        assert v.effectiveDate in amendments;
      }
      assert FirstAmended(store, c.ref, after(c), until, d);
      if FirstAmended(store, c.ref, after(c), until, n.date) {
        assert n.date == d;
      }
    }
  }

  lemma {:induction false} AmendmentNoticesAre(store: Store, code: NoticeCode, citations: seq<CitedBlock>,
                                               after: CitedBlock -> Date, until: Date, n: InForceNotice)
    ensures n in AmendmentNotices(store, code, citations, after, until) <==>
      exists c :: c in citations && n.code == code && n.blockRef == Some(Print(c.ref)) &&
                  FirstAmended(store, c.ref, after(c), until, n.date)
    decreases |citations|
  {
    if citations != [] {
      var init, last := citations[..|citations| - 1], citations[|citations| - 1];
      AmendmentNoticesAre(store, code, init, after, until, n);
      AmendmentNoticeIs(store, code, last, after, until, n);
      assert forall c :: c in citations <==> c in init || c == last by { assert citations == init + [last]; }
    }
  }

  lemma {:induction false} RecentAre(citations: seq<CitedBlock>, anchor: Date, n: InForceNotice)
    ensures n in RecentAmendmentNotices(citations, anchor) <==>
      exists c :: c in citations && anchor - 365 <= c.effectiveDate <= anchor &&
                  n == InForceNotice(RECENT_AMENDMENT, Some(Print(c.ref)), c.effectiveDate)
  {
    if citations != [] {
      RecentAre(citations[1..], anchor, n);
      assert forall c :: c in citations <==> c == citations[0] || c in citations[1..];
    }
  }

  /** The first citation of its block. */
  ghost predicate FirstCited(citations: seq<CitedBlock>, c: CitedBlock) {
    exists i :: 0 <= i < |citations| && citations[i] == c && forall j :: 0 <= j < i ==> citations[j].ref != c.ref
  }

  lemma FirstCitedStep(init: seq<CitedBlock>, last: CitedBlock, c: CitedBlock)
    ensures FirstCited(init + [last], c) <==> FirstCited(init, c) || (c == last && !Cites(init, last.ref))
  {
    var all := init + [last];
    if FirstCited(init, c) {
      var i :| 0 <= i < |init| && init[i] == c && forall j :: 0 <= j < i ==> init[j].ref != c.ref;
      assert all[i] == c && forall j :: 0 <= j < i ==> all[j] == init[j];
    }
    if FirstCited(all, c) {
      var i :| 0 <= i < |all| && all[i] == c && forall j :: 0 <= j < i ==> all[j].ref != c.ref;
      if i < |init| { assert init[i] == c && forall j :: 0 <= j < i ==> init[j] == all[j]; }
      else { assert forall j :: 0 <= j < |init| ==> init[j] == all[j]; }
    }
    if c == last && !Cites(init, last.ref) {
      assert all[|init|] == c && forall j :: 0 <= j < |init| ==> all[j].ref != c.ref;
    }
  }

  lemma {:induction false} FirstPerBlockIs(citations: seq<CitedBlock>, c: CitedBlock)
    ensures c in FirstPerBlock(citations) <==> FirstCited(citations, c)
    decreases |citations|
  {
    if citations != [] {
      var init, last := citations[..|citations| - 1], citations[|citations| - 1];
      FirstPerBlockIs(init, c);
      FirstPerBlockMissesNone(init, last.ref);
      FirstCitedStep(init, last, c);
      assert citations == init + [last];
    }
  }

  /** Why a run says a notice of a cited block. */
  ghost predicate Warrants(store: Store, c: CitedBlock, target: TargetDate, today: Date, yearEnd: Date -> Date, n: InForceNotice) {
    && n.blockRef == Some(Print(c.ref))
    && match n.code
       case HISTORICAL_TARGET_DATE => false
       case AMBIGUOUS_TARGET_YEAR =>
         target.precision == YEAR && FirstAmended(store, c.ref, target.value, yearEnd(target.value), n.date)
       case SUPERSEDED_REDACTION => FirstAmended(store, c.ref, c.effectiveDate, today, n.date)
       case RECENT_AMENDMENT => n.date == c.effectiveDate && target.value - 365 <= n.date <= target.value
  }

  lemma ByRule(store: Store, citations: seq<CitedBlock>, target: TargetDate, today: Date, yearEnd: Date -> Date, n: InForceNotice)
    ensures n in AmbiguousYearNotices(store, citations, target, yearEnd) <==>
      n.code == AMBIGUOUS_TARGET_YEAR && exists c :: c in citations && Warrants(store, c, target, today, yearEnd, n)
    ensures n in SupersededNotices(store, citations, today) <==>
      n.code == SUPERSEDED_REDACTION && exists c :: c in citations && Warrants(store, c, target, today, yearEnd, n)
    ensures n in RecentAmendmentNotices(citations, target.value) <==>
      n.code == RECENT_AMENDMENT && exists c :: c in citations && Warrants(store, c, target, today, yearEnd, n)
  {
    AmendmentNoticesAre(store, AMBIGUOUS_TARGET_YEAR, citations, c => target.value, yearEnd(target.value), n);
    AmendmentNoticesAre(store, SUPERSEDED_REDACTION, citations, (c: CitedBlock) => c.effectiveDate, today, n);
    RecentAre(citations, target.value, n);
  }

  /**
    The notices of a run are exactly these: the past date it answers at, and for the first citation of
    each block the first amendment inside a bare year, the first since the redaction it quotes, and the
    redaction itself if it is at most a year old.
  */
  lemma NoticesAre(store: Store, citations: seq<CitedBlock>, target: TargetDate, today: Date, yearEnd: Date -> Date,
                   n: InForceNotice)
    ensures n in BuildNotices(store, citations, target, today, yearEnd) <==>
      || (target.value < today && n == InForceNotice(HISTORICAL_TARGET_DATE, None, target.value))
      || exists c :: FirstCited(citations, c) && Warrants(store, c, target, today, yearEnd, n)
  {
    var unique := FirstPerBlock(citations);
    forall c ensures c in unique <==> FirstCited(citations, c) {
      FirstPerBlockIs(citations, c);
    }
    ByRule(store, unique, target, today, yearEnd, n);
  }

  function Importance(n: InForceNotice): nat {
    match n.code
    case HISTORICAL_TARGET_DATE => 0
    case AMBIGUOUS_TARGET_YEAR => 1
    case SUPERSEDED_REDACTION => 2
    case RECENT_AMENDMENT => 3
  }

  ghost predicate AllOf(notices: seq<InForceNotice>, code: NoticeCode) {
    forall i :: 0 <= i < |notices| ==> notices[i].code == code
  }

  /** They come in descending importance. */
  lemma NoticesAreOrdered(store: Store, citations: seq<CitedBlock>, target: TargetDate, today: Date, yearEnd: Date -> Date)
    ensures var notices := BuildNotices(store, citations, target, today, yearEnd);
      forall i, j :: 0 <= i < j < |notices| ==> Importance(notices[i]) <= Importance(notices[j])
  {
    var unique := FirstPerBlock(citations);
    AmendmentCodes(unique, AMBIGUOUS_TARGET_YEAR, store, c => target.value, yearEnd(target.value));
    AmendmentCodes(unique, SUPERSEDED_REDACTION, store, (c: CitedBlock) => c.effectiveDate, today);
    RecentCodes(unique, target.value);
    CodesThroughout(AmbiguousYearNotices(store, unique, target, yearEnd), AMBIGUOUS_TARGET_YEAR);
    CodesThroughout(SupersededNotices(store, unique, today), SUPERSEDED_REDACTION);
    CodesThroughout(RecentAmendmentNotices(unique, target.value), RECENT_AMENDMENT);
  }

  lemma CodesThroughout(notices: seq<InForceNotice>, code: NoticeCode)
    requires forall n :: n in notices ==> n.code == code
    ensures AllOf(notices, code)
  {
    forall i | 0 <= i < |notices| ensures notices[i].code == code {
      assert notices[i] in notices;
    }
  }
}
