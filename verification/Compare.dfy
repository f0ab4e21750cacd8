/** Comparing two saved runs: whether they may be compared, and what each resolver
    did differently. */
module Compare {
  import opened Orders
  import opened Text
  import opened Wrappers

  // ----- reports -----

  datatype Stats = Stats(total: int, successes: int, usable: int, answers: int, truncated: int, scored: int,
                         rcodes: map<string, int>)

  /** verdict is empty when the target was not probed. */
  datatype Result = Result(id: string, local: bool, incomplete: bool, openError: string, status: string,
                           verdict: string, stats: Stats)

  datatype Provenance = Provenance(corpusSha: Option<string>, corpusEntries: Option<int>, timeoutMs: Option<int>,
                                   concurrency: Option<int>, family: Option<string>, dnssec: Option<bool>,
                                   version: string)

  datatype Run = Run(seed: Option<int>, sampleSize: Option<int>, queriesPerTarget: Option<int>, queryTypes: seq<int>,
                     corpusMode: string, provenance: Provenance)

  datatype Report = Report(run: Run, results: seq<Result>)

  // ----- the gate -----

  datatype Value = Number(n: int) | Numbers(ns: seq<int>) | Flag(b: bool) | Text(s: string)

  const FIELDS: nat := 12
  const CACHE_MISS := "cache-miss"

  function OrDash(s: string): string {
    if s == "" then "—" else s
  }

  function SomeNumber(n: Option<int>): Option<Value> {
    if n.Some? then Some(Number(n.value)) else None
  }

  function SomeText(s: Option<string>): Option<Value> {
    if s.Some? then Some(Text(OrDash(s.value))) else None
  }

  /** The place of the nth dot, the length of the text when there are fewer. */
  function DotAt(s: string, n: nat, from: nat): (at: nat)
    requires from <= |s|
    ensures from <= at <= |s|
    decreases |s| - from
  {
    if from == |s| then from
    else if s[from] != '.' then DotAt(s, n, from + 1)
    else if n == 0 then from
    else DotAt(s, n - 1, from + 1)
  }

  /** Keeps the major and minor version; what follows the second dot is dropped. */
  function MajorMinor(version: string): string {
    if version == "" then "dev"
    else
      var trimmed := if version[0] == 'v' then version[1..] else version;
      trimmed[..DotAt(trimmed, 1, 0)]
  }

  /** The identity fields, in the order of the contract; None when not recorded. */
  function FieldValue(r: Run, field: nat): Option<Value> {
    var p := r.provenance;
    match field
    case 0 => SomeNumber(r.seed)
    case 1 => SomeNumber(r.sampleSize)
    case 2 => SomeNumber(r.queriesPerTarget)
    case 3 => if r.queryTypes != [] then Some(Numbers(r.queryTypes)) else None
    case 4 => Some(Text(OrDash(r.corpusMode)))
    case 5 => SomeText(p.corpusSha)
    case 6 => SomeNumber(p.corpusEntries)
    case 7 => SomeNumber(p.timeoutMs)
    case 8 => SomeNumber(p.concurrency)
    case 9 => SomeText(p.family)
    case 10 => if p.dnssec.Some? then Some(Flag(p.dnssec.value)) else None
    case _ => Some(Text(MajorMinor(p.version)))
  }

  datatype Blocker = Blocker(field: nat, baseline: Option<Value>, current: Option<Value>)

  /** Two runs may be compared when neither generated fresh names and every identity
      field is recorded in both and equal. */
  predicate Comparable(a: Run, b: Run) {
    && a.corpusMode != CACHE_MISS && b.corpusMode != CACHE_MISS
    && forall f :: 0 <= f < FIELDS ==> FieldValue(a, f).Some? && FieldValue(a, f) == FieldValue(b, f)
  }

  /** Both record the same value. */
  predicate Agree<T(==)>(x: Option<T>, y: Option<T>) {
    x.Some? && x == y
  }

  /** The same, with an empty text shown as a dash. */
  predicate TextsAgree(x: string, y: string) {
    x == y || (x in ["", "—"] && y in ["", "—"])
  }

  /** The comparability contract, field by field. */
  lemma ComparableSpelledOut(a: Run, b: Run)
    ensures var p, q := a.provenance, b.provenance;
            Comparable(a, b) <==>
            && a.corpusMode != "cache-miss" && b.corpusMode != "cache-miss" && TextsAgree(a.corpusMode, b.corpusMode)
            && Agree(a.seed, b.seed) && Agree(a.sampleSize, b.sampleSize)
            && Agree(a.queriesPerTarget, b.queriesPerTarget)
            && a.queryTypes != [] && a.queryTypes == b.queryTypes
            && p.corpusSha.Some? && q.corpusSha.Some? && TextsAgree(p.corpusSha.value, q.corpusSha.value)
            && Agree(p.corpusEntries, q.corpusEntries) && Agree(p.timeoutMs, q.timeoutMs)
            && Agree(p.concurrency, q.concurrency)
            && p.family.Some? && q.family.Some? && TextsAgree(p.family.value, q.family.value)
            && Agree(p.dnssec, q.dnssec) && MajorMinor(p.version) == MajorMinor(q.version)
  {
    hide MajorMinor;
    FieldsSpelledOut(a, b);
    LaterFieldsSpelledOut(a, b);
    if Comparable(a, b) {
      assert forall f :: 0 <= f < 12 ==> FieldValue(a, f).Some? && FieldValue(a, f) == FieldValue(b, f);
      assert FieldsAgree(a, b, 0) && FieldsAgree(a, b, 1) && FieldsAgree(a, b, 2) && FieldsAgree(a, b, 3);
      assert FieldsAgree(a, b, 4) && FieldsAgree(a, b, 5) && FieldsAgree(a, b, 6) && FieldsAgree(a, b, 7);
      assert FieldsAgree(a, b, 8) && FieldsAgree(a, b, 9) && FieldsAgree(a, b, 10) && FieldsAgree(a, b, 11);
    }
  }

  predicate FieldsAgree(a: Run, b: Run, f: nat) {
    FieldValue(a, f).Some? && FieldValue(a, f) == FieldValue(b, f)
  }

  lemma FieldsSpelledOut(a: Run, b: Run)
    ensures var p, q := a.provenance, b.provenance;
            && (FieldsAgree(a, b, 0) <==> Agree(a.seed, b.seed))
            && (FieldsAgree(a, b, 1) <==> Agree(a.sampleSize, b.sampleSize))
            && (FieldsAgree(a, b, 2) <==> Agree(a.queriesPerTarget, b.queriesPerTarget))
            && (FieldsAgree(a, b, 3) <==> a.queryTypes != [] && a.queryTypes == b.queryTypes)
            && (FieldsAgree(a, b, 4) <==> TextsAgree(a.corpusMode, b.corpusMode))
            && (FieldsAgree(a, b, 5) <==>
                  p.corpusSha.Some? && q.corpusSha.Some? && TextsAgree(p.corpusSha.value, q.corpusSha.value))
  {
    hide MajorMinor;
  }

  lemma LaterFieldsSpelledOut(a: Run, b: Run)
    ensures var p, q := a.provenance, b.provenance;
            && (FieldsAgree(a, b, 6) <==> Agree(p.corpusEntries, q.corpusEntries))
            && (FieldsAgree(a, b, 7) <==> Agree(p.timeoutMs, q.timeoutMs))
            && (FieldsAgree(a, b, 8) <==> Agree(p.concurrency, q.concurrency))
            && (FieldsAgree(a, b, 9) <==>
                  p.family.Some? && q.family.Some? && TextsAgree(p.family.value, q.family.value))
            && (FieldsAgree(a, b, 10) <==> Agree(p.dnssec, q.dnssec))
            && (FieldsAgree(a, b, 11) <==> MajorMinor(p.version) == MajorMinor(q.version))
  {
    hide MajorMinor;
  }

  lemma {:induction false} DotFound(s: string, n: nat, from: nat, at: nat)
    requires from <= at < |s| && s[at] == '.' && '.' !in s[from..at]
    ensures DotAt(s, n, from) == if n == 0 then at else DotAt(s, n - 1, at + 1)
    decreases at - from
  {
    if from < at {
      assert s[from] == s[from..at][0];
      assert s[from..at][1..] == s[from + 1..at];
      DotFound(s, n, from + 1, at);
    }
  }

  lemma {:induction false} NoDot(s: string, n: nat, from: nat)
    requires from <= |s| && '.' !in s[from..]
    ensures DotAt(s, n, from) == |s|
    decreases |s| - from
  {
    if from < |s| {
      assert s[from] == s[from..][0];
      assert s[from..][1..] == s[from + 1..];
      NoDot(s, n, from + 1);
    }
  }

  /** A version is compared by its first two parts, with or without a leading v. */
  lemma VersionsSpelledOut(major: string, minor: string, rest: string)
    requires '.' !in major && '.' !in minor && major != "" && major[0] != 'v'
    ensures MajorMinor("v" + (major + "." + minor + "." + rest)) == major + "." + minor
    ensures MajorMinor(major + "." + minor + "." + rest) == major + "." + minor
    ensures MajorMinor(major + "." + minor) == major + "." + minor
    ensures MajorMinor(major) == major && MajorMinor("") == "dev"
  {
    hide DotAt;
    var long := major + "." + minor + "." + rest;
    assert ("v" + long)[1..] == long && long[0] == major[0];
    SecondDot(major, minor, rest);
    FewerDots(major, minor);
  }

  lemma SecondDot(major: string, minor: string, rest: string)
    requires '.' !in major && '.' !in minor
    ensures var long, at := major + "." + minor + "." + rest, |major| + 1 + |minor|;
            DotAt(long, 1, 0) == at && long[..at] == major + "." + minor
  {
    hide DotAt;
    var long, at := major + "." + minor + "." + rest, |major| + 1 + |minor|;
    assert long[0..|major|] == major && long[|major| + 1..at] == minor;
    DotFound(long, 1, 0, |major|);
    DotFound(long, 0, |major| + 1, at);
  }

  lemma FewerDots(major: string, minor: string)
    requires '.' !in major && '.' !in minor
    ensures DotAt(major + "." + minor, 1, 0) == |major + "." + minor| && DotAt(major, 1, 0) == |major|
  {
    hide DotAt;
    var short := major + "." + minor;
    assert short[0..|major|] == major && short[|major| + 1..] == minor;
    DotFound(short, 1, 0, |major|);
    NoDot(short, 0, |major| + 1);
    assert major[0..] == major;
    NoDot(major, 1, 0);
  }

  method Gate(a: Run, b: Run) returns (blockers: seq<Blocker>)
    ensures blockers == [] <==> Comparable(a, b)
  {
    if a.corpusMode == CACHE_MISS || b.corpusMode == CACHE_MISS {
      return [Blocker(4, Some(Text(OrDash(a.corpusMode))), Some(Text(OrDash(b.corpusMode))))];
    }
    blockers := [];
    for f := 0 to FIELDS
      invariant blockers == [] <==>
                  forall g :: 0 <= g < f ==> FieldValue(a, g).Some? && FieldValue(a, g) == FieldValue(b, g)
    {
      var left, right := FieldValue(a, f), FieldValue(b, f);
      if left.None? || right.None? {
        blockers := blockers + [Blocker(f, left, right)];
        continue;
      }
      if left.value != right.value { blockers := blockers + [Blocker(f, left, right)]; }
    }
  }

  // ----- sorted keys -----

  /** The elements of a set in ascending order. */
  ghost function Sorted(keys: set<string>): (s: seq<string>)
    ensures forall k :: k in s <==> k in keys
  {
    if keys == {} then []
    else
      LeastKey(keys);
      var k :| k in keys && forall j :: j in keys ==> StringLe(k, j);
      [k] + Sorted(keys - {k})
  }

  lemma LeastKey(keys: set<string>)
    requires keys != {}
    ensures exists k :: k in keys && forall j :: j in keys ==> StringLe(k, j)
  {
    StringOrder();
    var k :| k in keys;
    var rest := keys - {k};
    var least := k;
    if rest != {} {
      LeastKey(rest);
      var l :| l in rest && forall j :: j in rest ==> StringLe(l, j);
      if StringLe(l, k) { least := l; }
    }
    forall j | j in keys ensures StringLe(least, j) {
      assert j == k || j in rest;
    }
  }

  lemma {:induction false} SortedAscends(keys: set<string>)
    ensures Ascending(Sorted(keys), StringLe) && Distinct(Sorted(keys))
  {
    if keys != {} {
      LeastKey(keys);
      var s := Sorted(keys);
      SortedAscends(keys - {s[0]});
    }
  }

  lemma SortedUnique(keys: set<string>, s: seq<string>)
    requires Ascending(s, StringLe) && Distinct(s) && forall k :: k in s <==> k in keys
    ensures s == Sorted(keys)
  {
    StringOrder();
    SortedAscends(keys);
    DistinctPermutation(s, Sorted(keys));
    AscendingUnique(s, Sorted(keys), StringLe);
  }

  /** The keys of two maps, each once, sorted: sortedTargetIDs and sortedRCodes. */
  method SortedUnion(before: set<string>, after: set<string>) returns (keys: seq<string>)
    ensures keys == Sorted(before + after)
  {
    var all: seq<string> := [];
    var rest := before + after;
    while rest != {}
      invariant rest <= before + after
      invariant Distinct(all) && forall k :: k in all <==> k in before + after && k !in rest
      decreases |rest|
    {
      var k :| k in rest;
      all := all + [k];
      rest := rest - {k};
    }
    keys := Sort(all, StringLe);
    StringOrder();
    SortAscending(all, StringLe);
    SortMultiset(all, StringLe);
    SameElements(all, keys);
    DistinctRearranged(all, keys);
    SortedUnique(before + after, keys);
  }

  // ----- findings -----

  datatype Detail =
    | OnlyBaseline
    | OnlyCurrent
    | Changed(before: string, after: string)
    | Counted(from: int, to: int)
    | Coded(rcode: string, was: int, now: int)

  datatype Finding = Finding(code: string, id: string, detail: Detail)

  datatype Suppression = Suppression(reason: string, scope: string)

  datatype Part = Part(findings: seq<Finding>, suppressions: seq<Suppression>)

  function ResponseFloor(total: int): int {
    var floor := (total + 99) / 100;
    if floor < 2 then 2 else floor
  }

  /** The floor is a hundredth of the queries, rounded up, but two at least. */
  lemma FloorMeans(total: nat)
    ensures var floor := ResponseFloor(total);
            && floor >= 2 && 100 * floor >= total && (floor > 2 ==> 100 * (floor - 1) < total)
  {
  }

  function Abs(n: int): nat {
    if n < 0 then -n else n
  }

  function Max(a: int, b: int): int {
    if a > b then a else b
  }

  function OpenPart(id: string, b: Result, c: Result): seq<Finding> {
    if (b.openError == "") != (c.openError == "") then [Finding("OPEN", id, Changed(b.openError, c.openError))] else []
  }

  function FailedPart(id: string, b: Result, c: Result): seq<Finding> {
    if (b.stats.successes == 0) != (c.stats.successes == 0)
    then [Finding("FAILED", id, Counted(b.stats.successes, c.stats.successes))]
    else []
  }

  function Moved(code: string, id: string, before: int, after: int, floor: int): seq<Finding> {
    if Abs(after - before) >= floor then [Finding(code, id, Counted(before, after))] else []
  }

  function RCode(stats: Stats, code: string): int {
    if code in stats.rcodes then stats.rcodes[code] else 0
  }

  function RCodeParts(id: string, b: Result, c: Result, floor: int, codes: seq<string>, k: nat): seq<Finding>
    requires k <= |codes|
  {
    if k == 0 then [] else RCodeParts(id, b, c, floor, codes, k - 1) + RCodePart(id, b, c, floor, codes[k - 1])
  }

  function RCodePart(id: string, b: Result, c: Result, floor: int, code: string): seq<Finding> {
    var before, after := RCode(b.stats, code), RCode(c.stats, code);
    if Abs(after - before) >= floor then [Finding("RCODE", id, Coded(code, before, after))] else []
  }

  function Flip(before: string, after: string): bool {
    before in ["qualified", "ineligible"] && after in ["qualified", "ineligible"]
  }

  /** A status change is reported only when the count that decided it moved too. */
  function StatusPart(id: string, b: Result, c: Result, floor: int): Part {
    if b.status == c.status then Part([], [])
    else if b.stats.scored != c.stats.scored && (b.status == "qualified") != (c.status == "qualified") &&
            Abs(c.stats.scored - b.stats.scored) < floor
    then Part([], [Suppression("peer-relative", id)])
    else if Flip(b.status, c.status) && Abs(c.stats.usable - b.stats.usable) < floor
    then Part([], [Suppression("boundary-crossing", id)])
    else Part([Finding("STATUS", id, Changed(b.status, c.status))], [])
  }

  predicate Decided(verdict: string) {
    verdict == "validating" || verdict == "not-validating"
  }

  function DnssecPart(id: string, b: Result, c: Result): Part {
    if b.verdict == c.verdict then Part([], [])
    else if Decided(b.verdict) && Decided(c.verdict)
    then Part([Finding("DNSSEC", id, Changed(b.verdict, c.verdict))], [])
    else Part([], [Suppression("probe-incomplete", id)])
  }

  /** Everything said about one paired target. */
  ghost function TargetPart(id: string, b: Result, c: Result): Part {
    var hard := OpenPart(id, b, c) + FailedPart(id, b, c);
    if b.stats.total != c.stats.total then
      Part(hard + [Finding("QUERIES", id, Counted(b.stats.total, c.stats.total))],
           [Suppression("denominator-mismatch", id)])
    else
      var floor := ResponseFloor(Max(b.stats.total, c.stats.total));
      var codes := Sorted(b.stats.rcodes.Keys + c.stats.rcodes.Keys);
      var status, dnssec := StatusPart(id, b, c, floor), DnssecPart(id, b, c);
      Part(hard + CountParts(id, b, c, floor) + RCodeParts(id, b, c, floor, codes, |codes|) + status.findings +
           dnssec.findings,
           status.suppressions + dnssec.suppressions)
  }

  function CountParts(id: string, b: Result, c: Result, floor: int): seq<Finding> {
    Moved("USABLE", id, b.stats.usable, c.stats.usable, floor) +
    Moved("ANSWERS", id, b.stats.answers, c.stats.answers, floor) +
    Moved("TRUNCATED", id, b.stats.truncated, c.stats.truncated, floor)
  }

  // ----- pairing -----

  const REDACTED := "system-redacted"

  predicate IsRedacted(id: string) {
    |id| >= |REDACTED| && id[..|REDACTED|] == REDACTED
  }

  /** The last result of an ID wins, as in a map filled in order. */
  function ById(results: seq<Result>, k: nat): map<string, Result>
    requires k <= |results|
  {
    if k == 0 then map[] else ById(results, k - 1)[results[k - 1].id := results[k - 1]]
  }

  function Index(r: Report): map<string, Result> {
    ById(r.results, |r.results|)
  }

  datatype Pairing = Redacted | OneSided(baseline: bool) | LocalPosition | IncompleteTarget | Paired

  function PairingOf(before: map<string, Result>, after: map<string, Result>, id: string): Pairing
    requires id in before || id in after
  {
    if IsRedacted(id) then Redacted
    else if id !in before || id !in after then OneSided(id in before)
    else if before[id].local || after[id].local then LocalPosition
    else if before[id].incomplete || after[id].incomplete then IncompleteTarget
    else Paired
  }

  ghost function IdPart(before: map<string, Result>, after: map<string, Result>, id: string): Part
    requires id in before || id in after
  {
    match PairingOf(before, after, id)
    case Redacted => Part([], [Suppression("redacted-identity", id)])
    case OneSided(baseline) => Part([Finding("PRESENCE", id, if baseline then OnlyBaseline else OnlyCurrent)], [])
    case LocalPosition => Part([], [Suppression("local-position", id)])
    case IncompleteTarget => Part([], [Suppression("incomplete-target", id)])
    case Paired => TargetPart(id, before[id], after[id])
  }

  ghost predicate Known(before: map<string, Result>, after: map<string, Result>, ids: seq<string>) {
    forall i :: 0 <= i < |ids| ==> ids[i] in before || ids[i] in after
  }

  /** Everything said about the first k IDs, and how many of them were compared. */
  ghost function Parts(before: map<string, Result>, after: map<string, Result>, ids: seq<string>, k: nat): Part
    requires k <= |ids| && Known(before, after, ids)
  {
    if k == 0 then Part([], [])
    else
      var front, own := Parts(before, after, ids, k - 1), IdPart(before, after, ids[k - 1]);
      Part(front.findings + own.findings, front.suppressions + own.suppressions)
  }

  ghost function ComparedCount(before: map<string, Result>, after: map<string, Result>, ids: seq<string>, k: nat): nat
    requires k <= |ids| && Known(before, after, ids)
  {
    if k == 0 then 0
    else ComparedCount(before, after, ids, k - 1) + if PairingOf(before, after, ids[k - 1]).Paired? then 1 else 0
  }

  predicate FindingLe(x: Finding, y: Finding) {
    if x.id != y.id then StringLe(x.id, y.id) else StringLe(x.code, y.code)
  }

  datatype Diff = Diff(baseline: Report, current: Report, blockers: seq<Blocker>, findings: seq<Finding>,
                       suppressions: seq<Suppression>, compared: nat)

  ghost function Ids(baseline: Report, current: Report): (ids: seq<string>)
    ensures Known(Index(baseline), Index(current), ids)
  {
    var ids := Sorted(Index(baseline).Keys + Index(current).Keys);
    assert forall i :: 0 <= i < |ids| ==> ids[i] in ids;
    ids
  }

  /** What Compare answers. */
  ghost predicate IsDiff(d: Diff, baseline: Report, current: Report) {
    var before, after, ids := Index(baseline), Index(current), Ids(baseline, current);
    && d.baseline == baseline && d.current == current
    && (d.blockers == [] <==> Comparable(baseline.run, current.run))
    && (d.blockers != [] ==> d.findings == [] && d.suppressions == [] && d.compared == 0)
    && (d.blockers == [] ==>
          && d.findings == Sort(Parts(before, after, ids, |ids|).findings, FindingLe)
          && d.suppressions == Parts(before, after, ids, |ids|).suppressions
          && d.compared == ComparedCount(before, after, ids, |ids|))
  }

  // ----- the loops -----

  method DescribeRCodes(id: string, b: Result, c: Result, floor: int) returns (found: seq<Finding>)
    ensures var codes := Sorted(b.stats.rcodes.Keys + c.stats.rcodes.Keys);
            found == RCodeParts(id, b, c, floor, codes, |codes|)
  {
    hide Sorted, RCodePart;
    var codes := SortedUnion(b.stats.rcodes.Keys, c.stats.rcodes.Keys);
    found := [];
    for k := 0 to |codes|
      invariant found == RCodeParts(id, b, c, floor, codes, k)
    {
      found := found + RCodePart(id, b, c, floor, codes[k]);
    }
  }

  /** appendTargetFindings: the hard facts, then, on the same number of queries, the
      counts that moved. */
  method DescribeTarget(id: string, b: Result, c: Result) returns (part: Part)
    ensures part == TargetPart(id, b, c)
  {
    hide OpenPart, FailedPart, StatusPart, DnssecPart, CountParts, Sorted, RCodeParts;
    var found := OpenPart(id, b, c) + FailedPart(id, b, c);
    if b.stats.total != c.stats.total {
      found := found + [Finding("QUERIES", id, Counted(b.stats.total, c.stats.total))];
      return Part(found, [Suppression("denominator-mismatch", id)]);
    }
    var floor := ResponseFloor(Max(b.stats.total, c.stats.total));
    found := found + CountParts(id, b, c, floor);
    var rcodes := DescribeRCodes(id, b, c, floor);
    found := found + rcodes;
    var status := StatusPart(id, b, c, floor);
    var dnssec := DnssecPart(id, b, c);
    part := Part(found + status.findings + dnssec.findings, status.suppressions + dnssec.suppressions);
  }

  class DiffBuilder {
    var findings: seq<Finding>
    var suppressions: seq<Suppression>
    var compared: nat

    constructor ()
      ensures findings == [] && suppressions == [] && compared == 0
    {
      findings, suppressions, compared := [], [], 0;
    }

    method AppendPart(part: Part)
      modifies this
      ensures findings == old(findings) + part.findings && suppressions == old(suppressions) + part.suppressions
      ensures compared == old(compared)
    {
      findings := findings + part.findings;
      suppressions := suppressions + part.suppressions;
    }

    method AppendTargetFindings(id: string, b: Result, c: Result)
      modifies this
      ensures findings == old(findings) + TargetPart(id, b, c).findings
      ensures suppressions == old(suppressions) + TargetPart(id, b, c).suppressions
      ensures compared == old(compared)
    {
      hide TargetPart;
      var part := DescribeTarget(id, b, c);
      AppendPart(part);
    }

    method AppendId(before: map<string, Result>, after: map<string, Result>, id: string)
      requires id in before || id in after
      modifies this
      ensures findings == old(findings) + IdPart(before, after, id).findings
      ensures suppressions == old(suppressions) + IdPart(before, after, id).suppressions
      ensures compared == old(compared) + if PairingOf(before, after, id).Paired? then 1 else 0
    {
      hide TargetPart, IsRedacted;
      if IsRedacted(id) {
        AppendPart(Part([], [Suppression("redacted-identity", id)]));
        return;
      }
      if id !in before || id !in after {
        AppendPart(Part([Finding("PRESENCE", id, if id in before then OnlyBaseline else OnlyCurrent)], []));
        return;
      }
      if before[id].local || after[id].local {
        AppendPart(Part([], [Suppression("local-position", id)]));
        return;
      }
      if before[id].incomplete || after[id].incomplete {
        AppendPart(Part([], [Suppression("incomplete-target", id)]));
        return;
      }
      compared := compared + 1;
      AppendTargetFindings(id, before[id], after[id]);
    }
  }

  method ResultById(r: Report) returns (index: map<string, Result>)
    ensures index == Index(r)
  {
    index := map[];
    for k := 0 to |r.results|
      invariant index == ById(r.results, k)
    {
      index := index[r.results[k].id := r.results[k]];
    }
  }

  /** The findings and suppressions of every ID, in order. */
  method DescribeIds(before: map<string, Result>, after: map<string, Result>, ids: seq<string>)
    returns (part: Part, compared: nat)
    requires Known(before, after, ids)
    ensures part == Parts(before, after, ids, |ids|) && compared == ComparedCount(before, after, ids, |ids|)
  {
    hide IdPart, PairingOf;
    var builder := new DiffBuilder();
    for k := 0 to |ids|
      invariant fresh(builder)
      invariant Part(builder.findings, builder.suppressions) == Parts(before, after, ids, k)
      invariant builder.compared == ComparedCount(before, after, ids, k)
    {
      builder.AppendId(before, after, ids[k]);
    }
    part, compared := Part(builder.findings, builder.suppressions), builder.compared;
  }

  method Compare(baseline: Report, current: Report) returns (d: Diff)
    ensures IsDiff(d, baseline, current)
  {
    hide Parts, ComparedCount, Comparable, ById;
    var blockers := Gate(baseline.run, current.run);
    if blockers != [] { return Diff(baseline, current, blockers, [], [], 0); }
    var before := ResultById(baseline);
    var after := ResultById(current);
    var ids := SortedUnion(before.Keys, after.Keys);
    assert ids == Ids(baseline, current);
    var part, compared := DescribeIds(before, after, ids);
    d := Diff(baseline, current, [], Sort(part.findings, FindingLe), part.suppressions, compared);
  }
}
