/** What a diff promises its reader. */
module CompareLaws {
  import opened Orders
  import opened Text
  import opened Compare

  // ----- swapping the two reports -----

  ghost predicate SameCodes(s: seq<Finding>, t: seq<Finding>) {
    |s| == |t| && forall i :: 0 <= i < |s| ==> s[i].id == t[i].id && s[i].code == t[i].code
  }

  lemma SameCodesJoined(a: seq<Finding>, b: seq<Finding>, c: seq<Finding>, d: seq<Finding>)
    requires SameCodes(a, b) && SameCodes(c, d)
    ensures SameCodes(a + c, b + d)
  {
  }

  lemma {:induction false} RCodesSwap(id: string, b: Result, c: Result, floor: int, codes: seq<string>, k: nat)
    requires k <= |codes|
    ensures SameCodes(RCodeParts(id, b, c, floor, codes, k), RCodeParts(id, c, b, floor, codes, k))
  {
    if k > 0 {
      RCodesSwap(id, b, c, floor, codes, k - 1);
      SameCodesJoined(RCodeParts(id, b, c, floor, codes, k - 1), RCodeParts(id, c, b, floor, codes, k - 1),
                      RCodePart(id, b, c, floor, codes[k - 1]), RCodePart(id, c, b, floor, codes[k - 1]));
    }
  }

  lemma SmallPartsSwap(id: string, b: Result, c: Result, floor: int)
    ensures SameCodes(OpenPart(id, b, c), OpenPart(id, c, b))
    ensures SameCodes(FailedPart(id, b, c), FailedPart(id, c, b))
    ensures SameCodes(StatusPart(id, b, c, floor).findings, StatusPart(id, c, b, floor).findings)
    ensures StatusPart(id, b, c, floor).suppressions == StatusPart(id, c, b, floor).suppressions
    ensures SameCodes(DnssecPart(id, b, c).findings, DnssecPart(id, c, b).findings)
    ensures DnssecPart(id, b, c).suppressions == DnssecPart(id, c, b).suppressions
  {
  }

  lemma CountPartsSwap(id: string, b: Result, c: Result, floor: int)
    ensures SameCodes(CountParts(id, b, c, floor), CountParts(id, c, b, floor))
  {
    var x, y := b.stats, c.stats;
    SameCodesJoined(Moved("USABLE", id, x.usable, y.usable, floor), Moved("USABLE", id, y.usable, x.usable, floor),
                    Moved("ANSWERS", id, x.answers, y.answers, floor),
                    Moved("ANSWERS", id, y.answers, x.answers, floor));
  }

  lemma TargetSwaps(id: string, b: Result, c: Result)
    ensures SameCodes(TargetPart(id, b, c).findings, TargetPart(id, c, b).findings)
    ensures TargetPart(id, b, c).suppressions == TargetPart(id, c, b).suppressions
  {
    hide OpenPart, FailedPart, StatusPart, DnssecPart, CountParts, RCodeParts, SameCodes, Sorted;
    var floor := ResponseFloor(Max(b.stats.total, c.stats.total));
    var codes := Sorted(b.stats.rcodes.Keys + c.stats.rcodes.Keys);
    assert b.stats.rcodes.Keys + c.stats.rcodes.Keys == c.stats.rcodes.Keys + b.stats.rcodes.Keys;
    SmallPartsSwap(id, b, c, floor);
    var hard, drah := OpenPart(id, b, c) + FailedPart(id, b, c), OpenPart(id, c, b) + FailedPart(id, c, b);
    SameCodesJoined(OpenPart(id, b, c), OpenPart(id, c, b), FailedPart(id, b, c), FailedPart(id, c, b));
    if b.stats.total != c.stats.total {
      QueriesSwap(id, b, c);
      SameCodesJoined(hard, drah, [Finding("QUERIES", id, Counted(b.stats.total, c.stats.total))],
                      [Finding("QUERIES", id, Counted(c.stats.total, b.stats.total))]);
    } else {
      CountPartsSwap(id, b, c, floor);
      RCodesSwap(id, b, c, floor, codes, |codes|);
      var rb, rc := RCodeParts(id, b, c, floor, codes, |codes|), RCodeParts(id, c, b, floor, codes, |codes|);
      SameCodesJoined(hard, drah, CountParts(id, b, c, floor), CountParts(id, c, b, floor));
      SameCodesJoined(hard + CountParts(id, b, c, floor), drah + CountParts(id, c, b, floor), rb, rc);
      SameCodesJoined(hard + CountParts(id, b, c, floor) + rb, drah + CountParts(id, c, b, floor) + rc,
                      StatusPart(id, b, c, floor).findings, StatusPart(id, c, b, floor).findings);
      SameCodesJoined(hard + CountParts(id, b, c, floor) + rb + StatusPart(id, b, c, floor).findings,
                      drah + CountParts(id, c, b, floor) + rc + StatusPart(id, c, b, floor).findings,
                      DnssecPart(id, b, c).findings, DnssecPart(id, c, b).findings);
    }
  }

  lemma QueriesSwap(id: string, b: Result, c: Result)
    ensures SameCodes([Finding("QUERIES", id, Counted(b.stats.total, c.stats.total))],
                      [Finding("QUERIES", id, Counted(c.stats.total, b.stats.total))])
  {
  }

  lemma IdSwaps(before: map<string, Result>, after: map<string, Result>, id: string)
    requires id in before || id in after
    ensures SameCodes(IdPart(before, after, id).findings, IdPart(after, before, id).findings)
    ensures IdPart(before, after, id).suppressions == IdPart(after, before, id).suppressions
    ensures PairingOf(before, after, id).Paired? == PairingOf(after, before, id).Paired?
  {
    hide TargetPart, IsRedacted;
    if PairingOf(before, after, id).Paired? { TargetSwaps(id, before[id], after[id]); }
  }

  lemma {:induction false} PartsSwap(before: map<string, Result>, after: map<string, Result>, ids: seq<string>, k: nat)
    requires k <= |ids| && Known(before, after, ids) && Known(after, before, ids)
    ensures SameCodes(Parts(before, after, ids, k).findings, Parts(after, before, ids, k).findings)
    ensures Parts(before, after, ids, k).suppressions == Parts(after, before, ids, k).suppressions
    ensures ComparedCount(before, after, ids, k) == ComparedCount(after, before, ids, k)
  {
    if k > 0 {
      hide IdPart, PairingOf, SameCodes;
      PartsSwap(before, after, ids, k - 1);
      IdSwaps(before, after, ids[k - 1]);
      SameCodesJoined(Parts(before, after, ids, k - 1).findings, Parts(after, before, ids, k - 1).findings,
                      IdPart(before, after, ids[k - 1]).findings, IdPart(after, before, ids[k - 1]).findings);
    } else {
      assert SameCodes([], []);
    }
  }

  lemma {:induction false} InsertCodes(x: Finding, y: Finding, s: seq<Finding>, t: seq<Finding>)
    requires x.id == y.id && x.code == y.code && SameCodes(s, t)
    ensures SameCodes(Insert(x, s, FindingLe), Insert(y, t, FindingLe))
  {
    hide FindingLe;
    if s != [] {
      SameOrder(x, y, s[0], t[0]);
      if !FindingLe(x, s[0]) { InsertCodes(x, y, s[1..], t[1..]); }
    }
  }

  lemma SameOrder(x: Finding, y: Finding, u: Finding, v: Finding)
    requires x.id == y.id && x.code == y.code && u.id == v.id && u.code == v.code
    ensures FindingLe(x, u) == FindingLe(y, v)
  {
  }

  lemma {:induction false} SortCodes(s: seq<Finding>, t: seq<Finding>)
    requires SameCodes(s, t)
    ensures SameCodes(Sort(s, FindingLe), Sort(t, FindingLe))
  {
    if s != [] {
      SortCodes(s[1..], t[1..]);
      InsertCodes(s[0], t[0], Sort(s[1..], FindingLe), Sort(t[1..], FindingLe));
    }
  }

  lemma ComparableSwaps(a: Report, b: Report)
    ensures Comparable(a.run, b.run) == Comparable(b.run, a.run)
  {
    hide FieldValue;
  }

  /** Swapping the reports keeps what was compared, which findings there are and in
      which order, and which comparisons were declined. */
  lemma CompareIsSymmetric(a: Report, b: Report, d: Diff, e: Diff)
    requires IsDiff(d, a, b) && IsDiff(e, b, a)
    ensures d.compared == e.compared && SameCodes(d.findings, e.findings) && d.suppressions == e.suppressions
    ensures (d.blockers == []) == (e.blockers == [])
  {
    hide Parts, ComparedCount, Comparable, ById, SameCodes;
    ComparableSwaps(a, b);
    assert Index(a).Keys + Index(b).Keys == Index(b).Keys + Index(a).Keys;
    if d.blockers == [] {
      var ids := Ids(a, b);
      assert ids == Ids(b, a);
      PartsSwap(Index(a), Index(b), ids, |ids|);
      SortCodes(Parts(Index(a), Index(b), ids, |ids|).findings, Parts(Index(b), Index(a), ids, |ids|).findings);
    } else {
      NothingSame();
    }
  }

  lemma NothingSame()
    ensures SameCodes([], [])
  {
  }

  // ----- a report against itself -----

  lemma RCodeStill(id: string, b: Result, floor: int, code: string)
    requires floor >= 2
    ensures RCodePart(id, b, b, floor, code) == []
  {
  }

  lemma {:induction false} RCodesStill(id: string, b: Result, floor: int, codes: seq<string>, k: nat)
    requires k <= |codes| && floor >= 2
    ensures RCodeParts(id, b, b, floor, codes, k) == []
  {
    if k > 0 {
      hide RCode, RCodePart;
      RCodesStill(id, b, floor, codes, k - 1);
      RCodeStill(id, b, floor, codes[k - 1]);
    }
  }

  lemma TargetStill(id: string, b: Result)
    ensures TargetPart(id, b, b) == Part([], [])
  {
    var floor := ResponseFloor(Max(b.stats.total, b.stats.total));
    var codes := Sorted(b.stats.rcodes.Keys + b.stats.rcodes.Keys);
    RCodesStill(id, b, floor, codes, |codes|);
  }

  lemma {:induction false} PartsStill(index: map<string, Result>, ids: seq<string>, k: nat)
    requires k <= |ids| && Known(index, index, ids)
    ensures Parts(index, index, ids, k).findings == []
  {
    if k > 0 {
      hide IdPart, PairingOf;
      PartsStill(index, ids, k - 1);
      IdStill(index, ids[k - 1]);
    }
  }

  lemma IdStill(index: map<string, Result>, id: string)
    requires id in index
    ensures IdPart(index, index, id).findings == []
  {
    hide TargetPart, IsRedacted;
    TargetStill(id, index[id]);
  }

  /** A comparable report has no findings against itself, and one is comparable with
      itself exactly when it is not a cache-miss run and records every field. */
  lemma SelfHasNoFindings(a: Report, d: Diff)
    requires IsDiff(d, a, a)
    ensures d.findings == []
    ensures d.blockers == [] <==>
              a.run.corpusMode != CACHE_MISS && forall f :: 0 <= f < FIELDS ==> FieldValue(a.run, f).Some?
  {
    hide Parts, ComparedCount, ById, FieldValue;
    var ids := Ids(a, a);
    PartsStill(Index(a), ids, |ids|);
  }

  // ----- every target is accounted for -----

  function CountCode(findings: seq<Finding>, code: string, k: nat): nat
    requires k <= |findings|
  {
    if k == 0 then 0 else CountCode(findings, code, k - 1) + if findings[k - 1].code == code then 1 else 0
  }

  function CountReason(s: seq<Suppression>, reason: string, k: nat): nat
    requires k <= |s|
  {
    if k == 0 then 0 else CountReason(s, reason, k - 1) + if s[k - 1].reason == reason then 1 else 0
  }

  lemma {:induction false} CountCodeJoined(a: seq<Finding>, b: seq<Finding>, code: string, k: nat)
    requires k <= |b|
    ensures CountCode(a + b, code, |a| + k) == CountCode(a, code, |a|) + CountCode(b, code, k)
  {
    if k > 0 {
      CountCodeJoined(a, b, code, k - 1);
    } else {
      CountCodePrefix(a, a + b, code, |a|);
    }
  }

  lemma {:induction false} CountCodePrefix(a: seq<Finding>, b: seq<Finding>, code: string, k: nat)
    requires k <= |a| && k <= |b| && forall i :: 0 <= i < k ==> a[i] == b[i]
    ensures CountCode(a, code, k) == CountCode(b, code, k)
  {
    if k > 0 { CountCodePrefix(a, b, code, k - 1); }
  }

  lemma {:induction false} CountReasonJoined(a: seq<Suppression>, b: seq<Suppression>, reason: string, k: nat)
    requires k <= |b|
    ensures CountReason(a + b, reason, |a| + k) == CountReason(a, reason, |a|) + CountReason(b, reason, k)
  {
    if k > 0 {
      CountReasonJoined(a, b, reason, k - 1);
    } else {
      CountReasonPrefix(a, a + b, reason, |a|);
    }
  }

  lemma {:induction false} CountReasonPrefix(a: seq<Suppression>, b: seq<Suppression>, reason: string, k: nat)
    requires k <= |a| && k <= |b| && forall i :: 0 <= i < k ==> a[i] == b[i]
    ensures CountReason(a, reason, k) == CountReason(b, reason, k)
  {
    if k > 0 { CountReasonPrefix(a, b, reason, k - 1); }
  }

  lemma {:induction false} CountNone(findings: seq<Finding>, code: string, k: nat)
    requires k <= |findings| && forall i :: 0 <= i < |findings| ==> findings[i].code != code
    ensures CountCode(findings, code, k) == 0
  {
    if k > 0 { CountNone(findings, code, k - 1); }
  }

  lemma {:induction false} CountNoReason(s: seq<Suppression>, reason: string, k: nat)
    requires k <= |s| && forall i :: 0 <= i < |s| ==> s[i].reason != reason
    ensures CountReason(s, reason, k) == 0
  {
    if k > 0 { CountNoReason(s, reason, k - 1); }
  }

  lemma {:induction false} InsertCount(x: Finding, s: seq<Finding>, code: string)
    ensures var t := Insert(x, s, FindingLe);
            CountCode(t, code, |t|) == CountCode(s, code, |s|) + if x.code == code then 1 else 0
  {
    hide FindingLe;
    if s == [] {
      assert Insert(x, s, FindingLe) == [x];
      CountOne(x, code);
    } else if FindingLe(x, s[0]) {
      CountCodeJoined([x], s, code, |s|);
      CountOne(x, code);
    } else {
      InsertCount(x, s[1..], code);
      CountCodeJoined([s[0]], Insert(x, s[1..], FindingLe), code, |Insert(x, s[1..], FindingLe)|);
      CountCodeJoined([s[0]], s[1..], code, |s[1..]|);
      assert [s[0]] + s[1..] == s;
    }
  }

  lemma CountOne(x: Finding, code: string)
    ensures CountCode([x], code, 1) == if x.code == code then 1 else 0
  {
    assert CountCode([x], code, 0) == 0;
  }

  lemma {:induction false} SortCount(s: seq<Finding>, code: string)
    ensures var t := Sort(s, FindingLe); CountCode(t, code, |t|) == CountCode(s, code, |s|)
  {
    if s != [] {
      hide Insert;
      SortCount(s[1..], code);
      InsertCount(s[0], Sort(s[1..], FindingLe), code);
      CountCodeJoined([s[0]], s[1..], code, |s[1..]|);
      CountOne(s[0], code);
      assert [s[0]] + s[1..] == s;
    }
  }

  const REASONS := ["redacted-identity", "local-position", "incomplete-target"]

  /** The suppressions that stand for a target that was not paired. */
  function Declined(s: seq<Suppression>): nat {
    CountReason(s, "redacted-identity", |s|) + CountReason(s, "local-position", |s|) +
    CountReason(s, "incomplete-target", |s|)
  }

  ghost predicate AllRCodes(s: seq<Finding>, id: string) {
    forall f :: f in s ==> f.code == "RCODE" && f.id == id
  }

  lemma {:induction false} RCodesOnly(id: string, b: Result, c: Result, floor: int, codes: seq<string>, k: nat)
    requires k <= |codes|
    ensures AllRCodes(RCodeParts(id, b, c, floor, codes, k), id)
  {
    if k > 0 { RCodesOnly(id, b, c, floor, codes, k - 1); }
  }

  /** What a paired target's findings can be. */
  lemma TargetFindings(id: string, b: Result, c: Result, f: Finding)
    requires f in TargetPart(id, b, c).findings
    ensures f.id == id && f.code != "PRESENCE"
    ensures f.code == "OPEN" ==> f in OpenPart(id, b, c)
    ensures f.code == "FAILED" ==> f in FailedPart(id, b, c)
    ensures f.code == "DNSSEC" ==> b.stats.total == c.stats.total && f in DnssecPart(id, b, c).findings
  {
    hide Sorted, RCodeParts;
    var floor := ResponseFloor(Max(b.stats.total, c.stats.total));
    var codes := Sorted(b.stats.rcodes.Keys + c.stats.rcodes.Keys);
    RCodesOnly(id, b, c, floor, codes, |codes|);
  }

  lemma TargetSuppressions(id: string, b: Result, c: Result, s: Suppression)
    requires s in TargetPart(id, b, c).suppressions
    ensures s.scope == id && s.reason !in REASONS
  {
    hide Sorted, RCodeParts, CountParts, OpenPart, FailedPart;
  }

  /** One ID adds exactly one to: compared, present in one run, or declined. */
  lemma IdCounts(before: map<string, Result>, after: map<string, Result>, id: string)
    requires id in before || id in after
    ensures var part := IdPart(before, after, id);
            (if PairingOf(before, after, id).Paired? then 1 else 0) +
            CountCode(part.findings, "PRESENCE", |part.findings|) + Declined(part.suppressions) == 1
  {
    hide TargetPart, IsRedacted;
    var part := IdPart(before, after, id);
    if PairingOf(before, after, id).Paired? {
      forall i | 0 <= i < |part.findings| ensures part.findings[i].code != "PRESENCE" {
        TargetFindings(id, before[id], after[id], part.findings[i]);
      }
      forall i, r | 0 <= i < |part.suppressions| && r in REASONS ensures part.suppressions[i].reason != r {
        TargetSuppressions(id, before[id], after[id], part.suppressions[i]);
      }
      CountNone(part.findings, "PRESENCE", |part.findings|);
      NoneDeclined(part.suppressions);
    } else if PairingOf(before, after, id).OneSided? {
      CountOne(part.findings[0], "PRESENCE");
    } else {
      OneDeclined(part.suppressions[0]);
    }
  }

  lemma NoneDeclined(s: seq<Suppression>)
    requires forall i, r :: 0 <= i < |s| && r in REASONS ==> s[i].reason != r
    ensures Declined(s) == 0
  {
    assert REASONS[0] in REASONS && REASONS[1] in REASONS && REASONS[2] in REASONS;
    CountNoReason(s, "redacted-identity", |s|);
    CountNoReason(s, "local-position", |s|);
    CountNoReason(s, "incomplete-target", |s|);
  }

  lemma OneDeclined(x: Suppression)
    requires x.reason in REASONS
    ensures Declined([x]) == 1
  {
    forall r ensures CountReason([x], r, 1) == if x.reason == r then 1 else 0 {
      assert CountReason([x], r, 0) == 0;
    }
  }

  lemma DeclinedJoined(a: seq<Suppression>, b: seq<Suppression>)
    ensures Declined(a + b) == Declined(a) + Declined(b)
  {
    CountReasonJoined(a, b, "redacted-identity", |b|);
    CountReasonJoined(a, b, "local-position", |b|);
    CountReasonJoined(a, b, "incomplete-target", |b|);
  }

  lemma {:induction false} PartsCount(before: map<string, Result>, after: map<string, Result>, ids: seq<string>, k: nat)
    requires k <= |ids| && Known(before, after, ids)
    ensures var part := Parts(before, after, ids, k);
            ComparedCount(before, after, ids, k) + CountCode(part.findings, "PRESENCE", |part.findings|) +
            Declined(part.suppressions) == k
  {
    hide *;
    if k == 0 {
      PartsStart(before, after, ids);
    } else {
      PartsCount(before, after, ids, k - 1);
      var id := IdKnown(before, after, ids, k - 1);
      IdCounts(before, after, id);
      var front, own := Parts(before, after, ids, k - 1), IdPart(before, after, id);
      CountCodeJoined(front.findings, own.findings, "PRESENCE", |own.findings|);
      DeclinedJoined(front.suppressions, own.suppressions);
      PartsStep(before, after, ids, k);
    }
  }

  lemma IdKnown(before: map<string, Result>, after: map<string, Result>, ids: seq<string>, k: nat) returns (id: string)
    requires k < |ids| && Known(before, after, ids)
    ensures id == ids[k] && (id in before || id in after)
  {
    id := ids[k];
  }

  lemma PartsStart(before: map<string, Result>, after: map<string, Result>, ids: seq<string>)
    requires Known(before, after, ids)
    ensures Parts(before, after, ids, 0) == Part([], []) && ComparedCount(before, after, ids, 0) == 0
    ensures CountCode([], "PRESENCE", 0) == 0 && Declined([]) == 0
  {
  }

  lemma PartsStep(before: map<string, Result>, after: map<string, Result>, ids: seq<string>, k: nat)
    requires 0 < k <= |ids| && Known(before, after, ids)
    ensures ids[k - 1] in before || ids[k - 1] in after
    ensures var front, own := Parts(before, after, ids, k - 1), IdPart(before, after, ids[k - 1]);
            Parts(before, after, ids, k) == Part(front.findings + own.findings, front.suppressions + own.suppressions)
    ensures ComparedCount(before, after, ids, k) ==
            ComparedCount(before, after, ids, k - 1) + if PairingOf(before, after, ids[k - 1]).Paired? then 1 else 0
  {
    hide IdPart, PairingOf;
  }

  lemma {:induction false} SuppressedIn(before: map<string, Result>, after: map<string, Result>, ids: seq<string>,
                                        k: nat, s: Suppression)
    requires k <= |ids| && Known(before, after, ids)
    ensures s in Parts(before, after, ids, k).suppressions <==>
            exists i :: 0 <= i < k && s in IdPart(before, after, ids[i]).suppressions
  {
    hide IdPart, PairingOf;
    if k > 0 { SuppressedIn(before, after, ids, k - 1, s); }
  }

  lemma {:induction false} FoundIn(before: map<string, Result>, after: map<string, Result>, ids: seq<string>, k: nat,
                                   f: Finding)
    requires k <= |ids| && Known(before, after, ids)
    ensures f in Parts(before, after, ids, k).findings <==>
            exists i :: 0 <= i < k && f in IdPart(before, after, ids[i]).findings
  {
    hide IdPart, PairingOf;
    if k > 0 { FoundIn(before, after, ids, k - 1, f); }
  }

  /** How one target is dealt with, read off what is said about it. */
  lemma IdClass(before: map<string, Result>, after: map<string, Result>, id: string)
    requires id in before || id in after
    ensures var part, pairing := IdPart(before, after, id), PairingOf(before, after, id);
            && (forall s :: s in part.suppressions ==> s.scope == id) && (forall f :: f in part.findings ==> f.id == id)
            && (Suppression("redacted-identity", id) in part.suppressions <==> pairing.Redacted?)
            && (Suppression("local-position", id) in part.suppressions <==> pairing.LocalPosition?)
            && (Suppression("incomplete-target", id) in part.suppressions <==> pairing.IncompleteTarget?)
            && (forall f :: f in part.findings && f.code == "PRESENCE" ==> pairing.OneSided?)
            && (pairing.OneSided? ==> Presence(id, pairing.baseline) in part.findings)
  {
    hide TargetPart, IsRedacted;
    var part := IdPart(before, after, id);
    if PairingOf(before, after, id).Paired? {
      assert REASONS[0] in REASONS && REASONS[1] in REASONS && REASONS[2] in REASONS;
      forall s | s in part.suppressions ensures s.scope == id && s.reason !in REASONS {
        TargetSuppressions(id, before[id], after[id], s);
      }
      forall f | f in part.findings ensures f.id == id && f.code != "PRESENCE" {
        TargetFindings(id, before[id], after[id], f);
      }
    }
  }

  function Presence(id: string, baseline: bool): Finding {
    Finding("PRESENCE", id, if baseline then OnlyBaseline else OnlyCurrent)
  }

  lemma SuppressedById(before: map<string, Result>, after: map<string, Result>, ids: seq<string>, i: nat,
                       s: Suppression)
    requires Known(before, after, ids) && i < |ids| && s.scope == ids[i]
    ensures s in Parts(before, after, ids, |ids|).suppressions <==> s in IdPart(before, after, ids[i]).suppressions
  {
    hide IdPart, PairingOf, Parts;
    SuppressedIn(before, after, ids, |ids|, s);
    forall j | 0 <= j < |ids| && s in IdPart(before, after, ids[j]).suppressions ensures ids[j] == s.scope {
      IdClass(before, after, ids[j]);
    }
  }

  lemma PresenceById(before: map<string, Result>, after: map<string, Result>, ids: seq<string>, i: nat, f: Finding)
    requires Known(before, after, ids) && i < |ids| && f.id == ids[i]
    ensures f in Parts(before, after, ids, |ids|).findings <==> f in IdPart(before, after, ids[i]).findings
  {
    hide IdPart, PairingOf, Parts;
    FoundIn(before, after, ids, |ids|, f);
    forall j | 0 <= j < |ids| && f in IdPart(before, after, ids[j]).findings ensures ids[j] == f.id {
      IdClass(before, after, ids[j]);
    }
  }

  ghost predicate SaidAbsent(d: Diff, id: string) {
    exists f :: f in d.findings && f.code == "PRESENCE" && f.id == id
  }

  ghost predicate Said(d: Diff, reason: string, id: string) {
    Suppression(reason, id) in d.suppressions
  }

  /** The targets that were compared. */
  ghost function Compared(a: Report, b: Report): set<string> {
    set id | id in Index(a).Keys + Index(b).Keys && PairingOf(Index(a), Index(b), id).Paired?
  }

  function Ticks(flags: seq<bool>, k: nat): nat
    requires k <= |flags|
  {
    if k == 0 then 0 else Ticks(flags, k - 1) + if flags[k - 1] then 1 else 0
  }

  function Ticked<T>(ids: seq<T>, flags: seq<bool>, k: nat): set<T>
    requires k <= |ids| == |flags|
  {
    if k == 0 then {} else Ticked(ids, flags, k - 1) + if flags[k - 1] then {ids[k - 1]} else {}
  }

  lemma {:induction false} TickedElements<T>(ids: seq<T>, flags: seq<bool>, k: nat)
    requires k <= |ids| == |flags|
    ensures forall x :: x in Ticked(ids, flags, k) <==> exists i :: 0 <= i < k && flags[i] && ids[i] == x
  {
    if k > 0 { TickedElements(ids, flags, k - 1); }
  }

  lemma OneMore<T>(s: set<T>, x: T)
    ensures x !in s ==> |s + {x}| == |s| + 1
  {
  }

  lemma {:induction false} TickedCount<T>(ids: seq<T>, flags: seq<bool>, k: nat)
    requires k <= |ids| == |flags| && Distinct(ids)
    ensures |Ticked(ids, flags, k)| == Ticks(flags, k)
  {
    if k > 0 {
      TickedCount(ids, flags, k - 1);
      TickedElements(ids, flags, k - 1);
      OneMore(Ticked(ids, flags, k - 1), ids[k - 1]);
    }
  }

  ghost function PairedFlags(before: map<string, Result>, after: map<string, Result>,
                             ids: seq<string>): (flags: seq<bool>)
    requires Known(before, after, ids)
    ensures |flags| == |ids| && forall i :: 0 <= i < |ids| ==> flags[i] == PairingOf(before, after, ids[i]).Paired?
  {
    seq(|ids|, i requires 0 <= i < |ids| => PairingOf(before, after, ids[i]).Paired?)
  }

  lemma {:induction false} ComparedIsTicks(before: map<string, Result>, after: map<string, Result>, ids: seq<string>,
                                           k: nat)
    requires k <= |ids| && Known(before, after, ids)
    ensures ComparedCount(before, after, ids, k) == Ticks(PairedFlags(before, after, ids), k)
  {
    hide PairingOf;
    if k > 0 { ComparedIsTicks(before, after, ids, k - 1); }
  }

  lemma ComparedAre(a: Report, b: Report)
    ensures ComparedCount(Index(a), Index(b), Ids(a, b), |Ids(a, b)|) == |Compared(a, b)|
  {
    hide PairingOf, ById, Sorted, Ticked, Ticks, ComparedCount;
    var before, after, ids := Index(a), Index(b), Ids(a, b);
    var flags := PairedFlags(before, after, ids);
    SortedAscends(before.Keys + after.Keys);
    ComparedIsTicks(before, after, ids, |ids|);
    TickedCount(ids, flags, |ids|);
    TickedElements(ids, flags, |ids|);
    forall id ensures id in Compared(a, b) <==> id in Ticked(ids, flags, |ids|) {
      if id in Compared(a, b) {
        assert id in before.Keys + after.Keys;
        var i := Find(ids, id);
      }
    }
    assert Compared(a, b) == Ticked(ids, flags, |ids|);
  }

  /** How a target is dealt with, from the two results alone: a redacted identity is never
      paired; then a target of one run is that; then one that is local in either run is
      not compared; then one that was interrupted in either. */
  lemma PairingSpelledOut(before: map<string, Result>, after: map<string, Result>, id: string)
    requires id in before || id in after
    ensures var pairing := PairingOf(before, after, id);
            var redacted, both := "system-redacted" <= id, id in before && id in after;
            && (pairing == Redacted <==> redacted)
            && (pairing == OneSided(true) <==> !redacted && id !in after)
            && (pairing == OneSided(false) <==> !redacted && id !in before)
            && (pairing == LocalPosition <==> !redacted && both && (before[id].local || after[id].local))
            && (pairing == IncompleteTarget <==>
                  !redacted && both && !before[id].local && !after[id].local &&
                  (before[id].incomplete || after[id].incomplete))
  {
  }

  /** The findings of a diff come by target, and of one target by code. */
  lemma FindingsAreOrdered(a: Report, b: Report, d: Diff)
    requires IsDiff(d, a, b)
    ensures forall i, j :: 0 <= i < j < |d.findings| ==>
              || (d.findings[i].id != d.findings[j].id && StringLe(d.findings[i].id, d.findings[j].id))
              || (d.findings[i].id == d.findings[j].id && StringLe(d.findings[i].code, d.findings[j].code))
  {
    if d.blockers == [] {
      hide Parts, ComparedCount, Comparable, Ids, Index;
      SortByFinding(Parts(Index(a), Index(b), Ids(a, b), |Ids(a, b)|).findings);
    }
  }

  /** Insertion needs no more of an order than that it compares and carries over. */
  lemma {:induction false} SortByFinding(s: seq<Finding>)
    ensures Ascending(Sort(s, FindingLe), FindingLe)
  {
    if s != [] {
      SortByFinding(s[1..]);
      InsertByFinding(s[0], Sort(s[1..], FindingLe));
      assert Sort(s, FindingLe) == Insert(s[0], Sort(s[1..], FindingLe), FindingLe);
    }
  }

  lemma FindingOrder(x: Finding, y: Finding, z: Finding)
    ensures FindingLe(x, y) || FindingLe(y, x)
    ensures FindingLe(x, y) && FindingLe(y, z) ==> FindingLe(x, z)
  {
    StringOrder();
  }

  lemma {:induction false} InsertByFinding(x: Finding, s: seq<Finding>)
    requires Ascending(s, FindingLe)
    ensures Ascending(Insert(x, s, FindingLe), FindingLe)
  {
    hide FindingLe;
    if s != [] {
      FindingOrder(x, s[0], x);
      if FindingLe(x, s[0]) {
        forall j | 0 <= j < |s| ensures FindingLe(x, s[j]) {
          FindingOrder(x, s[0], s[j]);
        }
      } else {
        InsertByFinding(x, s[1..]);
        var rest := Insert(x, s[1..], FindingLe);
        assert Insert(x, s, FindingLe) == [s[0]] + rest;
        forall j | 0 <= j < |rest| ensures FindingLe(s[0], rest[j]) {
          InsertFrom(x, s[1..], FindingLe, j);
        }
      }
    }
  }

  /** What the diff says about a target tells exactly how it was dealt with: redacted,
      local and incomplete targets are declined by name, a target of one run is
      reported absent from the other, and the rest are the compared ones, whose number
      the diff gives. So each target is exactly one of the five. */
  lemma EveryTargetIsClassified(a: Report, b: Report, d: Diff, id: string)
    requires IsDiff(d, a, b) && d.blockers == [] && (id in Index(a) || id in Index(b))
    ensures var pairing := PairingOf(Index(a), Index(b), id);
            && (Said(d, "redacted-identity", id) <==> pairing.Redacted?)
            && (Said(d, "local-position", id) <==> pairing.LocalPosition?)
            && (Said(d, "incomplete-target", id) <==> pairing.IncompleteTarget?)
            && (SaidAbsent(d, id) <==> pairing.OneSided?)
            && (id in Compared(a, b) <==> pairing.Paired?)
    ensures d.compared == |Compared(a, b)|
  {
    hide Parts, ComparedCount, Comparable, ById, IdPart, PairingOf, Sorted, Compared;
    ComparedAre(a, b);
    ClassSaid(a, b, d, id);
    IsCompared(a, b, id);
  }

  lemma IsCompared(a: Report, b: Report, id: string)
    requires id in Index(a) || id in Index(b)
    ensures id in Compared(a, b) <==> PairingOf(Index(a), Index(b), id).Paired?
  {
    hide ById, PairingOf;
  }

  lemma ClassSaid(a: Report, b: Report, d: Diff, id: string)
    requires IsDiff(d, a, b) && d.blockers == [] && (id in Index(a) || id in Index(b))
    ensures var pairing := PairingOf(Index(a), Index(b), id);
            && (Said(d, "redacted-identity", id) <==> pairing.Redacted?)
            && (Said(d, "local-position", id) <==> pairing.LocalPosition?)
            && (Said(d, "incomplete-target", id) <==> pairing.IncompleteTarget?)
            && (SaidAbsent(d, id) <==> pairing.OneSided?)
  {
    hide Parts, ComparedCount, Comparable, Index, IdPart, PairingOf, Sorted;
    var before, after, ids := Index(a), Index(b), Ids(a, b);
    assert id in before.Keys + after.Keys;
    var i := Find(ids, id);
    IdClass(before, after, id);
    SuppressedById(before, after, ids, i, Suppression("redacted-identity", id));
    SuppressedById(before, after, ids, i, Suppression("local-position", id));
    SuppressedById(before, after, ids, i, Suppression("incomplete-target", id));
    var all := Parts(before, after, ids, |ids|).findings;
    SortMultiset(all, FindingLe);
    SameElements(all, d.findings);
    forall f: Finding | f.id == id ensures f in d.findings <==> f in IdPart(before, after, id).findings {
      PresenceById(before, after, ids, i, f);
    }
  }

  /** Every target of either report is counted once: compared, present in one run
      only, redacted, local or incomplete. */
  lemma EveryTargetIsCounted(a: Report, b: Report, d: Diff)
    requires IsDiff(d, a, b) && d.blockers == []
    ensures d.compared + CountCode(d.findings, "PRESENCE", |d.findings|) + Declined(d.suppressions) == |Ids(a, b)|
  {
    hide Parts, ComparedCount, Comparable, ById, Declined;
    var ids := Ids(a, b);
    PartsCount(Index(a), Index(b), ids, |ids|);
    SortCount(Parts(Index(a), Index(b), ids, |ids|).findings, "PRESENCE");
  }
}
