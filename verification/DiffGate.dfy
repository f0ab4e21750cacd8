/** The conditions a diff can be gated on, each against a definition over the two
    reports themselves, and the verdict of the diff command. */
module DiffGate {
  import opened Orders
  import opened Text
  import opened Wrappers
  import opened Compare
  import opened CompareLaws

  datatype Condition =
    | NoNewFailedTargets
    | NoRemovedTargets
    | TargetSetIdentical
    | NoDnssecRegression
    | NoBehaviourChange

  function Parse(name: string): Option<Condition> {
    if name == "no-new-failed-targets" then Some(NoNewFailedTargets)
    else if name == "no-removed-targets" then Some(NoRemovedTargets)
    else if name == "target-set-identical" then Some(TargetSetIdentical)
    else if name == "no-dnssec-regression" then Some(NoDnssecRegression)
    else if name == "no-behaviour-change" then Some(NoBehaviourChange)
    else None
  }

  /** The names a gate accepts. */
  lemma NamesSpelledOut(name: string)
    ensures Parse("no-new-failed-targets") == Some(NoNewFailedTargets)
    ensures Parse("no-removed-targets") == Some(NoRemovedTargets)
    ensures Parse("target-set-identical") == Some(TargetSetIdentical)
    ensures Parse("no-dnssec-regression") == Some(NoDnssecRegression)
    ensures Parse("no-behaviour-change") == Some(NoBehaviourChange)
    ensures Parse(name).Some? ==>
              name in ["no-new-failed-targets", "no-removed-targets", "target-set-identical", "no-dnssec-regression",
                       "no-behaviour-change"]
  {
  }

  // ----- as the code evaluates them: over the findings -----

  predicate NewlyFailed(before: map<string, Result>, after: map<string, Result>, f: Finding) {
    match f.code
    case "FAILED" => f.id in before && f.id in after && before[f.id].stats.successes > 0 &&
                     after[f.id].stats.successes == 0
    case "OPEN" => f.id in before && f.id in after && before[f.id].openError == "" && after[f.id].openError != ""
    case "PRESENCE" => f.id in after && after[f.id].stats.successes == 0 && !after[f.id].incomplete &&
                       !after[f.id].local
    case _ => false
  }

  /** The finding makes the condition fail. */
  predicate Fails(c: Condition, before: map<string, Result>, after: map<string, Result>, f: Finding) {
    match c
    case NoNewFailedTargets => NewlyFailed(before, after, f)
    case NoRemovedTargets => f.code == "PRESENCE" && f.detail.OnlyBaseline?
    case TargetSetIdentical => f.code == "PRESENCE"
    case NoDnssecRegression => f.code == "DNSSEC" && f.detail.Changed? && f.detail.after == "not-validating"
    case NoBehaviourChange => true
  }

  ghost predicate Holds(c: Condition, d: Diff) {
    forall f :: f in d.findings ==> !Fails(c, Index(d.baseline), Index(d.current), f)
  }

  method Evaluate(c: Condition, d: Diff) returns (holds: bool)
    ensures holds == Holds(c, d)
  {
    var before := ResultById(d.baseline);
    var after := ResultById(d.current);
    for k := 0 to |d.findings|
      invariant forall j :: 0 <= j < k ==> !Fails(c, before, after, d.findings[j])
    {
      if Fails(c, before, after, d.findings[k]) {
        assert d.findings[k] in d.findings;
        return false;
      }
    }
    holds := true;
  }

  // ----- as a reader means them: over the reports -----

  /** Target id is worse off in the second report. */
  predicate Broken(c: Condition, before: map<string, Result>, after: map<string, Result>, id: string)
    requires id in before || id in after
  {
    var pairing := PairingOf(before, after, id);
    match c
    case NoNewFailedTargets =>
      if pairing.Paired? then
        (before[id].stats.successes > 0 && after[id].stats.successes == 0) ||
        (before[id].openError == "" && after[id].openError != "")
      else pairing == OneSided(false) && after[id].stats.successes == 0 && !after[id].incomplete && !after[id].local
    case NoRemovedTargets => pairing == OneSided(true)
    case TargetSetIdentical => pairing.OneSided?
    case NoDnssecRegression =>
      pairing.Paired? && before[id].stats.total == after[id].stats.total &&
      before[id].verdict == "validating" && after[id].verdict == "not-validating"
    case NoBehaviourChange => Differs(before, after, id)
  }

  /** Anything at all is reported about the target. */
  predicate Differs(before: map<string, Result>, after: map<string, Result>, id: string)
    requires id in before || id in after
  {
    var pairing := PairingOf(before, after, id);
    pairing.OneSided? || (pairing.Paired? && TargetDiffers(before[id], after[id]))
  }

  predicate TargetDiffers(b: Result, c: Result) {
    || (b.openError == "") != (c.openError == "")
    || (b.stats.successes == 0) != (c.stats.successes == 0)
    || b.stats.total != c.stats.total
    || CountsDiffer(b, c, ResponseFloor(Max(b.stats.total, c.stats.total)))
  }

  predicate CountsDiffer(b: Result, c: Result, floor: int) {
    || Abs(c.stats.usable - b.stats.usable) >= floor
    || Abs(c.stats.answers - b.stats.answers) >= floor
    || Abs(c.stats.truncated - b.stats.truncated) >= floor
    || (exists code :: code in b.stats.rcodes.Keys + c.stats.rcodes.Keys &&
                       Abs(RCode(c.stats, code) - RCode(b.stats, code)) >= floor)
    || StatusMoves(b, c, floor)
    || (b.verdict != c.verdict && Decided(b.verdict) && Decided(c.verdict))
  }

  /** The status changed and noise does not explain it: a target that starts or stops
      being qualified has as many scored responses as before or moved by the floor,
      and one that crosses between qualified and ineligible has usable responses that
      moved by the floor. */
  predicate StatusMoves(b: Result, c: Result, floor: int) {
    && b.status != c.status
    && (b.status == "qualified" || c.status == "qualified" ==>
          b.stats.scored == c.stats.scored || Abs(c.stats.scored - b.stats.scored) >= floor)
    && ({b.status, c.status} == {"qualified", "ineligible"} ==> Abs(c.stats.usable - b.stats.usable) >= floor)
  }

  /** The target is in both runs and the two results of it may be compared. */
  predicate Compared(before: map<string, Result>, after: map<string, Result>, id: string) {
    && !("system-redacted" <= id) && id in before && id in after
    && !before[id].local && !after[id].local && !before[id].incomplete && !after[id].incomplete
  }

  /** Each condition, target by target, in terms of the two results. */
  lemma BrokenSpelledOut(before: map<string, Result>, after: map<string, Result>, id: string)
    requires id in before || id in after
    ensures var named := !("system-redacted" <= id);
            && (Broken(NoRemovedTargets, before, after, id) <==> named && id !in after)
            && (Broken(TargetSetIdentical, before, after, id) <==> named && !(id in before && id in after))
            && (Broken(NoDnssecRegression, before, after, id) <==>
                  Compared(before, after, id) && before[id].stats.total == after[id].stats.total &&
                  before[id].verdict == "validating" && after[id].verdict == "not-validating")
            && (Broken(NoNewFailedTargets, before, after, id) <==>
                  || (Compared(before, after, id) && before[id].stats.successes > 0 && after[id].stats.successes == 0)
                  || (Compared(before, after, id) && before[id].openError == "" && after[id].openError != "")
                  || (named && id !in before && after[id].stats.successes == 0 && !after[id].incomplete &&
                      !after[id].local))
  {
    PairingSpelledOut(before, after, id);
  }

  // ----- the two agree -----

  lemma {:induction false} RCodeFound(id: string, b: Result, c: Result, floor: int, codes: seq<string>, k: nat, i: nat)
    requires i < k <= |codes| && Abs(RCode(c.stats, codes[i]) - RCode(b.stats, codes[i])) >= floor
    ensures RCodeParts(id, b, c, floor, codes, k) != []
  {
    if i < k - 1 { RCodeFound(id, b, c, floor, codes, k - 1, i); }
  }

  lemma {:induction false} RCodeNotFound(id: string, b: Result, c: Result, floor: int, codes: seq<string>, k: nat)
    requires k <= |codes|
    requires forall i :: 0 <= i < |codes| ==> Abs(RCode(c.stats, codes[i]) - RCode(b.stats, codes[i])) < floor
    ensures RCodeParts(id, b, c, floor, codes, k) == []
  {
    if k > 0 { RCodeNotFound(id, b, c, floor, codes, k - 1); }
  }

  lemma RCodesExactly(id: string, b: Result, c: Result, floor: int)
    ensures var codes := Sorted(b.stats.rcodes.Keys + c.stats.rcodes.Keys);
            RCodeParts(id, b, c, floor, codes, |codes|) != [] <==>
            exists code :: code in b.stats.rcodes.Keys + c.stats.rcodes.Keys &&
                           Abs(RCode(c.stats, code) - RCode(b.stats, code)) >= floor
  {
    var keys := b.stats.rcodes.Keys + c.stats.rcodes.Keys;
    var codes := Sorted(keys);
    if code :| code in keys && Abs(RCode(c.stats, code) - RCode(b.stats, code)) >= floor {
      var i := Find(codes, code);
      RCodeFound(id, b, c, floor, codes, |codes|, i);
    } else {
      forall i | 0 <= i < |codes| ensures Abs(RCode(c.stats, codes[i]) - RCode(b.stats, codes[i])) < floor {
        assert codes[i] in codes;
      }
      RCodeNotFound(id, b, c, floor, codes, |codes|);
    }
  }

  lemma StatusExactly(id: string, b: Result, c: Result, floor: int)
    ensures StatusPart(id, b, c, floor).findings != [] <==> StatusMoves(b, c, floor)
  {
    assert Flip(b.status, c.status) && b.status != c.status <==> {b.status, c.status} == {"qualified", "ineligible"};
  }

  lemma CountsExactly(id: string, b: Result, c: Result, floor: int)
    ensures CountParts(id, b, c, floor) != [] <==>
            Abs(c.stats.usable - b.stats.usable) >= floor || Abs(c.stats.answers - b.stats.answers) >= floor ||
            Abs(c.stats.truncated - b.stats.truncated) >= floor
  {
  }

  lemma TargetDiffersExactly(id: string, b: Result, c: Result)
    ensures TargetPart(id, b, c).findings != [] <==> TargetDiffers(b, c)
  {
    hide Sorted, RCodeParts, CountParts, StatusPart, StatusMoves;
    var floor := ResponseFloor(Max(b.stats.total, c.stats.total));
    RCodesExactly(id, b, c, floor);
    CountsExactly(id, b, c, floor);
    StatusExactly(id, b, c, floor);
  }

  lemma OpenFound(id: string, b: Result, c: Result)
    ensures OpenPart(id, b, c) != [] ==> OpenPart(id, b, c)[0] in TargetPart(id, b, c).findings
    ensures FailedPart(id, b, c) != [] ==> FailedPart(id, b, c)[0] in TargetPart(id, b, c).findings
    ensures var dnssec := DnssecPart(id, b, c).findings;
            b.stats.total == c.stats.total && dnssec != [] ==> dnssec[0] in TargetPart(id, b, c).findings
  {
    hide Sorted, RCodeParts, CountParts, StatusPart, OpenPart, FailedPart, DnssecPart;
  }

  /** Something reported about one target fails the condition exactly when the
      target is broken. */
  lemma IdBroken(c: Condition, before: map<string, Result>, after: map<string, Result>, id: string)
    requires id in before || id in after
    ensures (exists f :: f in IdPart(before, after, id).findings && Fails(c, before, after, f)) <==>
              Broken(c, before, after, id)
  {
    hide TargetPart, IsRedacted, TargetDiffers;
    var part := IdPart(before, after, id);
    if PairingOf(before, after, id).Paired? {
      var x, y := before[id], after[id];
      OpenFound(id, x, y);
      TargetDiffersExactly(id, x, y);
      if part.findings != [] { assert part.findings[0] in part.findings; }
      forall f | f in part.findings && Fails(c, before, after, f) ensures Broken(c, before, after, id) {
        TargetFindings(id, x, y, f);
      }
      if Broken(c, before, after, id) { BrokenIsFound(c, before, after, id); }
    } else if PairingOf(before, after, id).OneSided? {
      assert part.findings[0] in part.findings;
    }
  }

  lemma BrokenIsFound(c: Condition, before: map<string, Result>, after: map<string, Result>, id: string)
    requires id in before && id in after && PairingOf(before, after, id).Paired? && Broken(c, before, after, id)
    ensures exists f :: f in IdPart(before, after, id).findings && Fails(c, before, after, f)
  {
    hide TargetPart, IsRedacted, TargetDiffers;
    var x, y := before[id], after[id];
    OpenFound(id, x, y);
    TargetDiffersExactly(id, x, y);
    var findings := IdPart(before, after, id).findings;
    match c
    case NoNewFailedTargets =>
      if x.stats.successes > 0 && y.stats.successes == 0 {
        assert Fails(c, before, after, FailedPart(id, x, y)[0]);
      } else {
        assert Fails(c, before, after, OpenPart(id, x, y)[0]);
      }
    case NoRemovedTargets =>
    case TargetSetIdentical =>
    case NoDnssecRegression => assert Fails(c, before, after, DnssecPart(id, x, y).findings[0]);
    case NoBehaviourChange => assert findings[0] in findings;
  }

  lemma {:induction false} PartsElement(before: map<string, Result>, after: map<string, Result>, ids: seq<string>,
                                        k: nat, f: Finding)
    returns (i: nat)
    requires k <= |ids| && Known(before, after, ids) && f in Parts(before, after, ids, k).findings
    ensures i < k && f in IdPart(before, after, ids[i]).findings
  {
    hide IdPart, PairingOf;
    if f in IdPart(before, after, ids[k - 1]).findings {
      i := k - 1;
    } else {
      i := PartsElement(before, after, ids, k - 1, f);
    }
  }

  lemma {:induction false} PartsHave(before: map<string, Result>, after: map<string, Result>, ids: seq<string>, k: nat,
                                     i: nat, f: Finding)
    requires i < k <= |ids| && Known(before, after, ids) && f in IdPart(before, after, ids[i]).findings
    ensures f in Parts(before, after, ids, k).findings
  {
    hide IdPart, PairingOf;
    if i < k - 1 { PartsHave(before, after, ids, k - 1, i, f); }
  }

  /** On comparable runs every condition, evaluated over the findings, holds exactly
      when no target of the two reports is broken in its sense. */
  lemma ConditionsMeanWhatTheySay(c: Condition, a: Report, b: Report, d: Diff)
    requires IsDiff(d, a, b) && d.blockers == []
    ensures Holds(c, d) <==>
            forall id :: id in Index(a) || id in Index(b) ==> !Broken(c, Index(a), Index(b), id)
  {
    hide Parts, ComparedCount, Comparable, ById, IdPart, Broken, Fails, Sorted;
    var before, after, ids := Index(a), Index(b), Ids(a, b);
    var all := Parts(before, after, ids, |ids|).findings;
    SortMultiset(all, FindingLe);
    SameElements(all, d.findings);
    if Holds(c, d) {
      forall id | id in before || id in after ensures !Broken(c, before, after, id) {
        var i := IdListed(a, b, id);
        IdBroken(c, before, after, id);
        if f :| f in IdPart(before, after, id).findings && Fails(c, before, after, f) {
          PartsHave(before, after, ids, |ids|, i, f);
        }
      }
    }
    if forall id :: id in before || id in after ==> !Broken(c, before, after, id) {
      forall f | f in d.findings ensures !Fails(c, before, after, f) {
        var i := PartsElement(before, after, ids, |ids|, f);
        IdBroken(c, before, after, ids[i]);
      }
    }
  }

  lemma IdListed(a: Report, b: Report, id: string) returns (i: nat)
    requires id in Index(a) || id in Index(b)
    ensures i < |Ids(a, b)| && Ids(a, b)[i] == id
  {
    hide ById;
    assert id in Index(a).Keys + Index(b).Keys;
    i := Find(Ids(a, b), id);
  }

  // ----- what a finding shows -----

  /** The finding shows the two values it is about, the first run's first. */
  ghost predicate Shows(f: Finding, id: string, b: Result, c: Result) {
    && f.id == id
    && match f.code
       case "OPEN" => f.detail == Changed(b.openError, c.openError)
       case "FAILED" => f.detail == Counted(b.stats.successes, c.stats.successes)
       case "QUERIES" => f.detail == Counted(b.stats.total, c.stats.total)
       case "USABLE" => f.detail == Counted(b.stats.usable, c.stats.usable)
       case "ANSWERS" => f.detail == Counted(b.stats.answers, c.stats.answers)
       case "TRUNCATED" => f.detail == Counted(b.stats.truncated, c.stats.truncated)
       case "STATUS" => f.detail == Changed(b.status, c.status)
       case "DNSSEC" => f.detail == Changed(b.verdict, c.verdict)
       case "RCODE" =>
         exists name :: (name in b.stats.rcodes || name in c.stats.rcodes) &&
                        f.detail == Coded(name, RCode(b.stats, name), RCode(c.stats, name))
       case _ => false
  }

  /** Every finding about a paired target shows what its code says. */
  lemma FindingsShow(id: string, b: Result, c: Result, f: Finding)
    requires f in TargetPart(id, b, c).findings
    ensures Shows(f, id, b, c)
  {
    hide Sorted, RCodeParts, Shows, OpenPart, FailedPart, CountParts, StatusPart, DnssecPart;
    var floor := ResponseFloor(Max(b.stats.total, c.stats.total));
    var codes := Sorted(b.stats.rcodes.Keys + c.stats.rcodes.Keys);
    HardFactsShow(id, b, c);
    CountsShow(id, b, c, floor);
    VerdictsShow(id, b, c, floor);
    if f in RCodeParts(id, b, c, floor, codes, |codes|) {
      var i := RCodeShown(id, b, c, floor, codes, |codes|, f);
      assert codes[i] in codes;
      RCodeShows(id, b, c, codes[i]);
    }
  }

  lemma HardFactsShow(id: string, b: Result, c: Result)
    ensures forall f :: f in OpenPart(id, b, c) + FailedPart(id, b, c) ==> Shows(f, id, b, c)
    ensures Shows(Finding("QUERIES", id, Counted(b.stats.total, c.stats.total)), id, b, c)
  {
  }

  lemma CountsShow(id: string, b: Result, c: Result, floor: int)
    ensures forall f :: f in CountParts(id, b, c, floor) ==> Shows(f, id, b, c)
  {
  }

  lemma VerdictsShow(id: string, b: Result, c: Result, floor: int)
    ensures forall f :: f in StatusPart(id, b, c, floor).findings + DnssecPart(id, b, c).findings ==> Shows(f, id, b, c)
  {
  }

  lemma RCodeShows(id: string, b: Result, c: Result, name: string)
    requires name in b.stats.rcodes || name in c.stats.rcodes
    ensures Shows(Finding("RCODE", id, Coded(name, RCode(b.stats, name), RCode(c.stats, name))), id, b, c)
  {
  }

  lemma {:induction false} RCodeShown(id: string, b: Result, c: Result, floor: int, codes: seq<string>, k: nat,
                                      f: Finding) returns (i: nat)
    requires k <= |codes| && f in RCodeParts(id, b, c, floor, codes, k)
    ensures i < k && f == Finding("RCODE", id, Coded(codes[i], RCode(b.stats, codes[i]), RCode(c.stats, codes[i])))
  {
    hide RCode;
    if f in RCodeParts(id, b, c, floor, codes, k - 1) {
      i := RCodeShown(id, b, c, floor, codes, k - 1, f);
    } else {
      i := k - 1;
    }
  }

  /** Why a change of status is declined: because of what the peers voted, when whether
      the target is qualified turned on a count of scored responses that moved by less
      than the floor; because it crossed the bar on fewer usable responses than that. */
  lemma DeclinedBecause(id: string, b: Result, c: Result)
    requires b.stats.total == c.stats.total && b.status != c.status
    ensures var p, floor := TargetPart(id, b, c), ResponseFloor(Max(b.stats.total, c.stats.total));
            var byPeers := (b.status == "qualified" || c.status == "qualified") &&
                           0 < Abs(c.stats.scored - b.stats.scored) < floor;
            var atTheBar := {b.status, c.status} == {"qualified", "ineligible"} &&
                            Abs(c.stats.usable - b.stats.usable) < floor;
            && (Suppression("peer-relative", id) in p.suppressions <==> byPeers)
            && (Suppression("boundary-crossing", id) in p.suppressions <==> atTheBar && !byPeers)
  {
    hide Sorted, RCodeParts, CountParts, OpenPart, FailedPart;
    assert Flip(b.status, c.status) <==> {b.status, c.status} == {"qualified", "ineligible"};
  }

  // ----- noise -----

  /** Two results of one target that differ by at most one response in every count,
      with the same hard facts and at most a crossing of the qualification bar. */
  ghost predicate OneResponseApart(b: Result, c: Result) {
    && b.stats.total == c.stats.total && (b.openError == "") == (c.openError == "")
    && (b.stats.successes == 0) == (c.stats.successes == 0)
    && Abs(c.stats.usable - b.stats.usable) <= 1 && Abs(c.stats.answers - b.stats.answers) <= 1 &&
       Abs(c.stats.truncated - b.stats.truncated) <= 1
    && (forall code :: code in b.stats.rcodes.Keys + c.stats.rcodes.Keys ==>
          Abs(RCode(c.stats, code) - RCode(b.stats, code)) <= 1)
    && (b.status == c.status || Flip(b.status, c.status)) && b.verdict == c.verdict
  }

  /** One lost datagram is never reported as a change of behaviour. */
  lemma OneResponseIsNoise(id: string, b: Result, c: Result)
    requires OneResponseApart(b, c)
    ensures TargetPart(id, b, c).findings == []
  {
    hide TargetPart, Sorted, RCode;
    TargetDiffersExactly(id, b, c);
  }

  ghost function Codes(p: Part, code: string): nat {
    CountCode(p.findings, code, |p.findings|)
  }

  ghost function Reasons(p: Part, reason: string): nat {
    CountReason(p.suppressions, reason, |p.suppressions|)
  }

  const EARLIER := ["OPEN", "FAILED", "USABLE", "ANSWERS", "TRUNCATED", "RCODE"]

  ghost predicate AllEarlier(s: seq<Finding>) {
    forall i :: 0 <= i < |s| ==> s[i].code in EARLIER
  }

  /** The findings that come before the status and the verdict. */
  ghost function Earlier(id: string, b: Result, c: Result, floor: int): seq<Finding> {
    var codes := Sorted(b.stats.rcodes.Keys + c.stats.rcodes.Keys);
    OpenPart(id, b, c) + FailedPart(id, b, c) + CountParts(id, b, c, floor) +
    RCodeParts(id, b, c, floor, codes, |codes|)
  }

  lemma PlainEarlier(id: string, b: Result, c: Result, floor: int)
    ensures AllEarlier(OpenPart(id, b, c)) && AllEarlier(FailedPart(id, b, c)) &&
            AllEarlier(CountParts(id, b, c, floor))
  {
  }

  lemma CodedEarlier(s: seq<Finding>, id: string)
    requires AllRCodes(s, id)
    ensures AllEarlier(s)
  {
    assert EARLIER[5] == "RCODE";
  }

  lemma EarlierCodes(id: string, b: Result, c: Result, floor: int, code: string)
    requires code !in EARLIER
    ensures Codes(Part(Earlier(id, b, c, floor), []), code) == 0
  {
    hide Sorted, RCodeParts, CountCode, OpenPart, FailedPart, CountParts;
    var codes := Sorted(b.stats.rcodes.Keys + c.stats.rcodes.Keys);
    RCodesOnly(id, b, c, floor, codes, |codes|);
    CodedEarlier(RCodeParts(id, b, c, floor, codes, |codes|), id);
    PlainEarlier(id, b, c, floor);
    CountNone(Earlier(id, b, c, floor), code, |Earlier(id, b, c, floor)|);
  }

  /** The counts of a part that says at most one thing of each kind. */
  lemma SmallCounts(p: Part, code: string, reason: string)
    requires |p.findings| <= 1 && |p.suppressions| <= 1
    ensures Codes(p, code) == if p.findings != [] && p.findings[0].code == code then 1 else 0
    ensures Reasons(p, reason) == if p.suppressions != [] && p.suppressions[0].reason == reason then 1 else 0
  {
    assert CountCode(p.findings, code, 0) == 0 && CountReason(p.suppressions, reason, 0) == 0;
  }

  /** On equal totals, a code that only the status and the verdict can have is counted
      by them alone, and so is every reason. */
  lemma TargetCounts(id: string, b: Result, c: Result, code: string, reason: string)
    requires b.stats.total == c.stats.total && code !in EARLIER
    ensures var floor := ResponseFloor(Max(b.stats.total, c.stats.total));
            var p, s, d := TargetPart(id, b, c), StatusPart(id, b, c, floor), DnssecPart(id, b, c);
            Codes(p, code) == Codes(s, code) + Codes(d, code) &&
            Reasons(p, reason) == Reasons(s, reason) + Reasons(d, reason)
  {
    hide StatusPart, DnssecPart, OpenPart, FailedPart, CountParts, RCodeParts, Sorted, CountCode, CountReason;
    var floor := ResponseFloor(Max(b.stats.total, c.stats.total));
    var earlier, s, d := Earlier(id, b, c, floor), StatusPart(id, b, c, floor), DnssecPart(id, b, c);
    assert TargetPart(id, b, c) == Part(earlier + s.findings + d.findings, s.suppressions + d.suppressions);
    EarlierCodes(id, b, c, floor, code);
    CountCodeJoined(earlier, s.findings, code, |s.findings|);
    CountCodeJoined(earlier + s.findings, d.findings, code, |d.findings|);
    CountReasonJoined(s.suppressions, d.suppressions, reason, |d.suppressions|);
  }

  /** What is said about the status is said once, and nothing about the verdict. */
  lemma StatusCounts(id: string, b: Result, c: Result, floor: int)
    ensures var s := StatusPart(id, b, c, floor);
            && Codes(s, "STATUS") + Reasons(s, "peer-relative") + Reasons(s, "boundary-crossing") ==
               (if b.status != c.status then 1 else 0)
            && Codes(s, "DNSSEC") == 0 && Reasons(s, "probe-incomplete") == 0
  {
    hide Codes, Reasons;
    var s := StatusPart(id, b, c, floor);
    SmallCounts(s, "STATUS", "peer-relative");
    SmallCounts(s, "DNSSEC", "boundary-crossing");
    SmallCounts(s, "STATUS", "probe-incomplete");
  }

  lemma DnssecCounts(id: string, b: Result, c: Result)
    ensures var d := DnssecPart(id, b, c);
            && Codes(d, "DNSSEC") + Reasons(d, "probe-incomplete") == (if b.verdict != c.verdict then 1 else 0)
            && Codes(d, "STATUS") == 0 && Reasons(d, "peer-relative") == 0 && Reasons(d, "boundary-crossing") == 0
  {
    hide Codes, Reasons;
    var d := DnssecPart(id, b, c);
    SmallCounts(d, "STATUS", "peer-relative");
    SmallCounts(d, "DNSSEC", "boundary-crossing");
    SmallCounts(d, "STATUS", "probe-incomplete");
  }

  lemma UnequalTotals(id: string, b: Result, c: Result)
    requires b.stats.total != c.stats.total
    ensures Codes(TargetPart(id, b, c), "QUERIES") == 1
  {
    hide CountCode;
    var hard := OpenPart(id, b, c) + FailedPart(id, b, c);
    var queries := Finding("QUERIES", id, Counted(b.stats.total, c.stats.total));
    CountNone(hard, "QUERIES", |hard|);
    CountOne(queries, "QUERIES");
    CountCodeJoined(hard, [queries], "QUERIES", 1);
  }

  /** A changed status or verdict is never silent. On equal totals exactly one finding
      or one suppression that names why speaks of it, and nothing does when it has not
      changed; on unequal totals the target says that they are, and declines the rest. */
  lemma NothingIsSilent(id: string, b: Result, c: Result)
    ensures var p := TargetPart(id, b, c);
            if b.stats.total == c.stats.total then
              && Codes(p, "STATUS") + Reasons(p, "peer-relative") + Reasons(p, "boundary-crossing") ==
                 (if b.status != c.status then 1 else 0)
              && Codes(p, "DNSSEC") + Reasons(p, "probe-incomplete") == (if b.verdict != c.verdict then 1 else 0)
            else
              p.suppressions == [Suppression("denominator-mismatch", id)] && Codes(p, "QUERIES") == 1
  {
    if b.stats.total == c.stats.total {
      hide TargetPart, Codes, Reasons, StatusPart, DnssecPart;
      TargetCounts(id, b, c, "STATUS", "peer-relative");
      TargetCounts(id, b, c, "STATUS", "boundary-crossing");
      TargetCounts(id, b, c, "DNSSEC", "probe-incomplete");
      StatusCounts(id, b, c, ResponseFloor(Max(b.stats.total, c.stats.total)));
      DnssecCounts(id, b, c);
    } else {
      UnequalTotals(id, b, c);
    }
  }

  // ----- the gate's verdicts -----

  datatype Outcome = Passed | Failed | NotEvaluated

  /** What the gate owes a condition: a refused diff evaluates nothing, a failure
      stands, and a pass counts only when something was compared. */
  predicate Owed(d: Diff, holds: bool, o: Outcome) {
    if d.blockers != [] then o == NotEvaluated
    else (o == Failed <==> !holds) && (o == Passed <==> holds && d.compared > 0)
  }

  method Require(d: Diff, names: seq<string>) returns (results: Option<seq<bool>>)
    ensures results.None? <==> exists k :: 0 <= k < |names| && Parse(names[k]).None?
    ensures results.Some? ==> |results.value| == |names|
    ensures results.Some? ==> forall k :: 0 <= k < |names| ==> results.value[k] == Holds(Parse(names[k]).value, d)
  {
    hide Parse, Holds;
    var list: seq<bool> := [];
    for k := 0 to |names|
      invariant |list| == k
      invariant forall j :: 0 <= j < k ==> Parse(names[j]).Some? && list[j] == Holds(Parse(names[j]).value, d)
    {
      var condition := Parse(names[k]);
      if condition.None? { return None; }
      var holds := Evaluate(condition.value, d);
      list := list + [holds];
    }
    results := Some(list);
  }

  method Conditions(d: Diff, results: seq<bool>) returns (outcomes: seq<Outcome>)
    ensures |outcomes| == |results|
    ensures d.blockers != [] ==> forall k :: 0 <= k < |results| ==> outcomes[k] == NotEvaluated
    ensures d.blockers == [] ==> forall k :: 0 <= k < |results| ==> (outcomes[k] == Failed <==> !results[k])
    ensures d.blockers == [] ==>
              forall k :: 0 <= k < |results| ==> (outcomes[k] == Passed <==> results[k] && d.compared > 0)
  {
    outcomes := [];
    for k := 0 to |results|
      invariant |outcomes| == k && forall j :: 0 <= j < k ==> Owed(d, results[j], outcomes[j])
    {
      var outcome := Failed;
      if d.blockers != [] {
        outcome := NotEvaluated;
      } else if results[k] {
        outcome := if d.compared == 0 then NotEvaluated else Passed;
      }
      outcomes := outcomes + [outcome];
    }
  }

  datatype Verdict = Success | UnknownCondition | NotWritten | NotComparable | ConditionFailed | NothingCompared

  ghost predicate AllKnown(required: seq<string>) {
    forall k :: 0 <= k < |required| ==> Parse(required[k]).Some?
  }

  ghost predicate AllHold(required: seq<string>, d: Diff) {
    forall k :: 0 <= k < |required| ==> Parse(required[k]).Some? && Holds(Parse(required[k]).value, d)
  }

  /** The verdict, from what the reports and the conditions are. */
  ghost function RightVerdict(a: Report, b: Report, d: Diff, required: seq<string>, written: bool): Verdict {
    if !AllKnown(required) then UnknownCondition
    else if !written then NotWritten
    else if !Comparable(a.run, b.run) then NotComparable
    else if !AllHold(required, d) then ConditionFailed
    else if required != [] && d.compared == 0 then NothingCompared
    else Success
  }

  /** With conditions to meet, success means the runs are comparable, something was
      compared, and every condition holds; and it is reached whenever they do. */
  lemma SuccessMeansEvaluated(a: Report, b: Report, d: Diff, required: seq<string>, written: bool)
    requires required != []
    ensures RightVerdict(a, b, d, required, written) == Success <==>
            written && Comparable(a.run, b.run) && d.compared > 0 && AllHold(required, d)
  {
    hide Parse, Holds, Comparable;
  }

  lemma BlockersDecide(d: Diff, a: Report, b: Report)
    requires IsDiff(d, a, b)
    ensures d.blockers == [] <==> Comparable(a.run, b.run)
  {
    hide Comparable, Parts, ComparedCount, Ids;
  }

  /** runDiff after both reports have loaded; written says whether the diff could be
      emitted. A refusal outranks a failed condition, and a gate that evaluated
      nothing never passes. */
  method RunDiff(a: Report, b: Report, required: seq<string>, written: bool) returns (v: Verdict, d: Diff)
    ensures IsDiff(d, a, b)
    ensures v == RightVerdict(a, b, d, required, written)
  {
    hide Parse, Holds, Comparable, IsDiff;
    d := Compare.Compare(a, b);
    BlockersDecide(d, a, b);
    var outcomes: seq<Outcome> := [];
    if |required| > 0 {
      var results := Require(d, required);
      if results.None? { return UnknownCondition, d; }
      outcomes := Conditions(d, results.value);
    }
    assert IsOutcomes(d, required, outcomes);
    if !written { return NotWritten, d; }
    if d.blockers != [] { return NotComparable, d; }
    var failed := 0;
    var evaluated := true;
    for k := 0 to |outcomes|
      invariant 0 <= failed <= k
      invariant failed > 0 <==> exists j :: 0 <= j < k && outcomes[j] == Failed
      invariant evaluated <==> forall j :: 0 <= j < k ==> outcomes[j] != NotEvaluated
    {
      match outcomes[k] {
        case Failed => failed := failed + 1;
        case NotEvaluated => evaluated := false;
        case Passed =>
      }
    }
    OutcomesDecide(d, required, outcomes);
    if failed > 0 { return ConditionFailed, d; }
    if !evaluated { return NothingCompared, d; }
    v := Success;
  }

  /** The outcomes are those of the named conditions. */
  ghost predicate IsOutcomes(d: Diff, required: seq<string>, outcomes: seq<Outcome>) {
    && |outcomes| == |required| && AllKnown(required)
    && forall k :: 0 <= k < |outcomes| ==> Owed(d, Holds(Parse(required[k]).value, d), outcomes[k])
  }

  lemma OutcomesDecide(d: Diff, required: seq<string>, outcomes: seq<Outcome>)
    requires IsOutcomes(d, required, outcomes) && d.blockers == []
    ensures AllHold(required, d) <==> forall k :: 0 <= k < |outcomes| ==> outcomes[k] != Failed
    ensures (exists k :: 0 <= k < |outcomes| && outcomes[k] == NotEvaluated) ==> d.compared == 0
    ensures required != [] && d.compared == 0 && AllHold(required, d) ==> outcomes[0] == NotEvaluated
  {
    hide Parse, Holds;
    if forall k :: 0 <= k < |outcomes| ==> outcomes[k] != Failed {
      forall k | 0 <= k < |required| ensures Parse(required[k]).Some? && Holds(Parse(required[k]).value, d) {
        assert outcomes[k] != Failed;
      }
    }
  }

  // ----- why nothing was compared -----

  method NotComparedSummary(d: Diff) returns (counts: map<string, nat>, unpaired: nat)
    ensures forall r :: r in counts <==> CountReason(d.suppressions, r, |d.suppressions|) > 0
    ensures forall r :: r in counts ==> counts[r] == CountReason(d.suppressions, r, |d.suppressions|)
    ensures unpaired == CountCode(d.findings, "PRESENCE", |d.findings|)
  {
    counts := map[];
    for k := 0 to |d.suppressions|
      invariant forall r :: r in counts <==> CountReason(d.suppressions, r, k) > 0
      invariant forall r :: r in counts ==> counts[r] == CountReason(d.suppressions, r, k)
    {
      var r := d.suppressions[k].reason;
      counts := counts[r := (if r in counts then counts[r] else 0) + 1];
    }
    unpaired := 0;
    for k := 0 to |d.findings|
      invariant unpaired == CountCode(d.findings, "PRESENCE", k)
    {
      if d.findings[k].code == "PRESENCE" { unpaired := unpaired + 1; }
    }
  }

  /** When nothing was compared the summary's counts add up to the number of targets. */
  lemma SummaryAddsUp(a: Report, b: Report, d: Diff)
    requires IsDiff(d, a, b) && d.blockers == [] && d.compared == 0
    ensures CountReason(d.suppressions, "redacted-identity", |d.suppressions|) +
            CountReason(d.suppressions, "local-position", |d.suppressions|) +
            CountReason(d.suppressions, "incomplete-target", |d.suppressions|) +
            CountCode(d.findings, "PRESENCE", |d.findings|) == |Ids(a, b)|
  {
    EveryTargetIsCounted(a, b, d);
  }
}
