/**
 * Building the records of one capture: the agent's phases, the seven-phase
 * cap, the choice between a single record and a group, and the numbering of a
 * group's records. titleBase and groupBase stand for the date, domain and slug
 * part of the two ID generators, which depend on the title alone within one call.
 */
module RecordBuilder {
  import opened Prelude
  import Positions

  /** The fields of a phase that the record model keeps. */
  datatype Phase = Phase(title: string, alternatives: seq<string>, tradeOffs: seq<string>, tags: seq<string>)

  /** One element of the agent's phases array: an object, or some other JSON value. */
  datatype RawPhase = Object(phase: Phase) | NotAnObject

  datatype Extraction = Extraction(
    groupTitle: string,
    groupType: string,
    groupSummary: string,
    tags: seq<string>,
    single: bool,              // single-record fields are present
    phases: seq<Phase>)

  datatype Record = Record(
    id: string,
    title: string,
    alternatives: seq<string>,
    tradeOffs: seq<string>,
    tags: seq<string>,
    groupId: string,
    groupType: string,
    phaseSeq: nat,
    phaseTotal: nat,
    groupSummary: Option<string>)

  datatype Built = Missing | InvalidInput | Single | Group(records: seq<Record>)

  const MAX_PHASES := 7
  const MAX_LISTED := 5

  /** The objects among the first n elements, in order. */
  function ObjectsIn(raw: seq<RawPhase>, n: nat): (phases: seq<Phase>)
    requires n <= |raw|
    ensures |phases| <= n
  {
    if n == 0 then []
    else ObjectsIn(raw, n - 1) + (if raw[n - 1].Object? then [raw[n - 1].phase] else [])
  }

  function Capped(raw: seq<RawPhase>): nat {
    if |raw| < MAX_PHASES then |raw| else MAX_PHASES
  }

  function ObjectAt(raw: seq<RawPhase>): nat -> Option<Phase> {
    (i: nat) => if i < |raw| && raw[i].Object? then Some(raw[i].phase) else None
  }

  lemma {:induction false} ObjectsAreKept(raw: seq<RawPhase>, n: nat)
    requires n <= |raw|
    ensures ObjectsIn(raw, n) == Positions.Kept(n, ObjectAt(raw))
  {
    if n > 0 {
      ObjectsAreKept(raw, n - 1);
    }
  }

  /** Increasing positions of objects among the first seven elements, and all of them. */
  ghost predicate AreObjects(raw: seq<RawPhase>, at: seq<nat>) {
    && (forall k | 0 <= k < |at| :: at[k] < |raw| && at[k] < 7 && raw[at[k]].Object?)
    && (forall k, l | 0 <= k < l < |at| :: at[k] < at[l])
    && (forall i: nat | i < |raw| && i < 7 && raw[i].Object? :: i in at)
  }

  lemma PickedIsObject(raw: seq<RawPhase>, n: nat, at: seq<nat>, phases: seq<Phase>, k: nat)
    requires n <= |raw| && Positions.Picks(at, phases, n, ObjectAt(raw)) && k < |at|
    ensures at[k] < n && raw[at[k]] == Object(phases[k])
  {
    assert ObjectAt(raw)(at[k]) == Some(phases[k]);
  }

  lemma ObjectIsPicked(raw: seq<RawPhase>, n: nat, at: seq<nat>, phases: seq<Phase>, i: nat)
    requires n <= |raw| && Positions.Picks(at, phases, n, ObjectAt(raw)) && i < n && raw[i].Object?
    ensures i in at
  {
    assert ObjectAt(raw)(i).Some?;
  }

  lemma PickedObjects(raw: seq<RawPhase>) returns (at: seq<nat>)
    ensures AreObjects(raw, at) && |at| == |ObjectsIn(raw, Capped(raw))|
    ensures forall k | 0 <= k < |at| :: at[k] < |raw| && raw[at[k]] == Object(ObjectsIn(raw, Capped(raw))[k])
  {
    var n, phases := Capped(raw), ObjectsIn(raw, Capped(raw));
    ObjectsAreKept(raw, n);
    at := Positions.KeptIsPicked(n, ObjectAt(raw));
    forall k | 0 <= k < |at| ensures at[k] < n && raw[at[k]] == Object(phases[k]) {
      PickedIsObject(raw, n, at, phases, k);
    }
    forall i: nat | i < n && raw[i].Object? ensures i in at {
      ObjectIsPicked(raw, n, at, phases, i);
    }
  }

  /** The multi-phase branch: at most seven elements are looked at, and those that are no objects are skipped. */
  method ParsePhases(raw: seq<RawPhase>) returns (phases: seq<Phase>, ghost at: seq<nat>)
    ensures phases == ObjectsIn(raw, Capped(raw))
    ensures AreObjects(raw, at) && |phases| == |at|
    ensures forall k | 0 <= k < |at| :: at[k] < |raw| && raw[at[k]] == Object(phases[k])
  {
    at := PickedObjects(raw);
    phases := [];
    var i := 0;
    while i < |raw|
      invariant i <= Capped(raw)
      invariant phases == ObjectsIn(raw, i)
    {
      if i >= MAX_PHASES {
        break;
      }
      match raw[i] {
        case NotAnObject =>
        case Object(p) => phases := phases + [p];
      }
      i := i + 1;
    }
  }

  // ------------------------------------------------------------------------- numbers

  const DIGITS := "0123456789"

  /** fmt's %d. */
  function Decimal(n: nat): string {
    if n < 10 then [DIGITS[n]] else Decimal(n / 10) + [DIGITS[n % 10]]
  }

  predicate IsDigit(c: char) {
    '0' <= c <= '9'
  }

  lemma DigitsAreDigits(d: nat, e: nat)
    requires d < 10 && e < 10
    ensures IsDigit(DIGITS[d]) && (DIGITS[d] == DIGITS[e] ==> d == e)
  {
  }

  lemma {:induction false} DecimalIsDigits(n: nat)
    ensures |Decimal(n)| > 0 && forall c | c in Decimal(n) :: IsDigit(c)
  {
    if n < 10 {
      DigitsAreDigits(n, n);
    } else {
      DecimalIsDigits(n / 10);
      DigitsAreDigits(n % 10, n % 10);
    }
  }

  lemma {:induction false} DecimalIsInjective(m: nat, n: nat)
    requires Decimal(m) == Decimal(n)
    ensures m == n
  {
    DecimalIsDigits(m / 10);
    DecimalIsDigits(n / 10);
    assert (m < 10) == (|Decimal(m)| == 1) && (n < 10) == (|Decimal(n)| == 1);
    if m < 10 {
      DigitsAreDigits(m, n);
    } else {
      var a, b := Decimal(m), Decimal(n);
      assert a[..|a| - 1] == Decimal(m / 10) && b[..|b| - 1] == Decimal(n / 10);
      DecimalIsInjective(m / 10, n / 10);
      DigitsAreDigits(m % 10, n % 10);
    }
  }

  /** What a string of digits means. */
  function NumberOf(s: string): int {
    if |s| == 0 then 0 else 10 * NumberOf(s[..|s| - 1]) + (s[|s| - 1] as int - '0' as int)
  }

  lemma DigitMeans(d: nat)
    requires d < 10
    ensures DIGITS[d] as int - '0' as int == d
  {
  }

  lemma {:induction false} DecimalMeans(n: nat)
    ensures NumberOf(Decimal(n)) == n && (n > 0 ==> Decimal(n)[0] != '0')
  {
    DigitMeans(n % 10);
    if n >= 10 {
      DecimalMeans(n / 10);
      var front := Decimal(n / 10);
      assert Decimal(n)[..|front|] == front;
    } else {
      assert Decimal(n)[..0] == [];
    }
  }

  /** The last letter of s stands right before its final number. */
  predicate LastLetterAt(s: string, k: nat) {
    k < |s| && !IsDigit(s[k]) && forall j | k < j < |s| :: IsDigit(s[j])
  }

  lemma NumberAtEnd(u: string, n: nat)
    requires |u| > 0 && !IsDigit(u[|u| - 1])
    ensures LastLetterAt(u + Decimal(n), |u| - 1)
  {
    DecimalIsDigits(n);
    var s := u + Decimal(n);
    forall j | |u| - 1 < j < |s| ensures IsDigit(s[j]) {
      assert s[j] in Decimal(n);
    }
  }

  /** With a letter before the number, equal strings end in the same number. */
  lemma NumberedApart(u: string, v: string, m: nat, n: nat)
    requires |u| > 0 && |v| > 0 && !IsDigit(u[|u| - 1]) && !IsDigit(v[|v| - 1])
    requires u + Decimal(m) == v + Decimal(n)
    ensures m == n
  {
    NumberAtEnd(u, m);
    NumberAtEnd(v, n);
    assert |u| == |v|;
    assert (u + Decimal(m))[|u|..] == Decimal(m) && (v + Decimal(n))[|u|..] == Decimal(n);
    DecimalIsInjective(m, n);
  }

  // --------------------------------------------------------------------------- groups

  function TypeOf(groupType: string): string {
    if groupType == "" then "phase_chain" else groupType
  }

  function TitleOf(p: Phase, i: nat): string {
    if p.title == "" then "Phase " + Decimal(i + 1) else p.title
  }

  function SuffixMark(groupType: string): string {
    if groupType == "bundle" then "_b" else "_p"
  }

  function AtMostFive(xs: seq<string>): seq<string> {
    if |xs| > MAX_LISTED then xs[..MAX_LISTED] else xs
  }

  function RecordAt(x: Extraction, groupTitle: string, titleBase: string -> string, groupBase: string -> string, i: nat): Record
    requires i < |x.phases|
  {
    var p, kind := x.phases[i], TypeOf(x.groupType);
    Record(titleBase(TitleOf(p, i)) + SuffixMark(kind) + Decimal(i), TitleOf(p, i),
           AtMostFive(p.alternatives), AtMostFive(p.tradeOffs), if |p.tags| == 0 then x.tags else p.tags,
           groupBase(groupTitle), kind, i, |x.phases|, if x.groupSummary != "" then Some(x.groupSummary) else None)
  }

  /** fallbackTitle is the title made from the text and the phases when the extraction has none. */
  function GroupTitle(x: Extraction, fallbackTitle: string): string {
    if x.groupTitle == "" then fallbackTitle else x.groupTitle
  }

  /** The first five of a list, or all of it. */
  predicate IsCapped(listed: seq<string>, all: seq<string>) {
    listed <= all && |listed| == if |all| > 5 then 5 else |all|
  }

  /** The record of phase i of total: its own title, lists and tags, with what stands in for an empty title or no tags. */
  ghost predicate HoldsPhase(r: Record, p: Phase, x: Extraction, i: nat, total: nat, titleBase: string -> string, groupId: string) {
    && r.title == (if p.title == "" then "Phase " + Decimal(i + 1) else p.title)
    && r.id == titleBase(r.title) + (if x.groupType == "bundle" then "_b" else "_p") + Decimal(i)
    && IsCapped(r.alternatives, p.alternatives) && IsCapped(r.tradeOffs, p.tradeOffs)
    && r.tags == (if p.tags == [] then x.tags else p.tags)
    && r.groupType == (if x.groupType == "" then "phase_chain" else x.groupType)
    && r.groupSummary == (if x.groupSummary == "" then None else Some(x.groupSummary))
    && r.groupId == groupId && r.phaseSeq == i && r.phaseTotal == total
  }

  ghost predicate AllHoldPhases(records: seq<Record>, phases: seq<Phase>, x: Extraction,
                                titleBase: string -> string, groupId: string) {
    |records| == |phases| && forall i | 0 <= i < |records| :: HoldsPhase(records[i], phases[i], x, i, |phases|, titleBase, groupId)
  }

  lemma RecordHoldsPhase(x: Extraction, groupTitle: string, titleBase: string -> string, groupBase: string -> string, i: nat)
    requires i < |x.phases|
    ensures HoldsPhase(RecordAt(x, groupTitle, titleBase, groupBase, i), x.phases[i], x, i, |x.phases|,
                       titleBase, groupBase(groupTitle))
  {
  }

  lemma RecordsHoldPhases(x: Extraction, records: seq<Record>, groupTitle: string,
                          titleBase: string -> string, groupBase: string -> string)
    requires |records| == |x.phases|
    requires forall i | 0 <= i < |records| :: records[i] == RecordAt(x, groupTitle, titleBase, groupBase, i)
    ensures AllHoldPhases(records, x.phases, x, titleBase, groupBase(groupTitle))
  {
    forall i | 0 <= i < |records| ensures HoldsPhase(records[i], x.phases[i], x, i, |x.phases|, titleBase, groupBase(groupTitle)) {
      RecordHoldsPhase(x, groupTitle, titleBase, groupBase, i);
    }
  }

  method BuildMultiRecord(x: Extraction, fallbackTitle: string, titleBase: string -> string, groupBase: string -> string)
    returns (records: seq<Record>)
    ensures |records| == |x.phases|
    ensures forall i | 0 <= i < |records| :: records[i] == RecordAt(x, GroupTitle(x, fallbackTitle), titleBase, groupBase, i)
    ensures AllHoldPhases(records, x.phases, x, titleBase, groupBase(if x.groupTitle == "" then fallbackTitle else x.groupTitle))
  {
    var groupTitle := x.groupTitle;
    if groupTitle == "" {
      groupTitle := fallbackTitle;
    }
    var groupId := groupBase(groupTitle);
    var groupType := x.groupType;
    if groupType == "" {
      groupType := "phase_chain";
    }
    records := [];
    for i := 0 to |x.phases|
      invariant |records| == i
      invariant forall k | 0 <= k < i :: records[k] == RecordAt(x, GroupTitle(x, fallbackTitle), titleBase, groupBase, k)
    {
      var p := x.phases[i];
      var phaseTitle := p.title;
      if phaseTitle == "" {
        phaseTitle := "Phase " + Decimal(i + 1);
      }
      var suffix := "_p";
      if groupType == "bundle" {
        suffix := "_b";
      }
      var recordId := titleBase(phaseTitle) + suffix + Decimal(i);
      var alts := p.alternatives;
      if |alts| > MAX_LISTED {
        alts := alts[..MAX_LISTED];
      }
      var tos := p.tradeOffs;
      if |tos| > MAX_LISTED {
        tos := tos[..MAX_LISTED];
      }
      var tags := p.tags;
      if |tags| == 0 {
        tags := x.tags;
      }
      var summary: Option<string> := None;
      if x.groupSummary != "" {
        summary := Some(x.groupSummary);
      }
      records := records + [Record(recordId, phaseTitle, alts, tos, tags, groupId, groupType, i, |x.phases|, summary)];
    }
    RecordsHoldPhases(x, records, GroupTitle(x, fallbackTitle), titleBase, groupBase);
  }

  method BuildPhases(extraction: Option<Extraction>, fallbackTitle: string, titleBase: string -> string, groupBase: string -> string)
    returns (built: Built)
    ensures built == Missing <==> extraction.None?
    ensures built.Group? <==> extraction.Some? && |extraction.value.phases| > 1
    ensures built == Single <==> extraction.Some? && |extraction.value.phases| <= 1 && extraction.value.single
    ensures built == InvalidInput <==> extraction.Some? && |extraction.value.phases| <= 1 && !extraction.value.single
    ensures built.Group? ==> IsGroup(built.records) && |built.records| == |extraction.value.phases|
    ensures built.Group? ==> forall i | 0 <= i < |built.records| ::
      built.records[i] == RecordAt(extraction.value, GroupTitle(extraction.value, fallbackTitle), titleBase, groupBase, i)
    ensures built.Group? ==> var x := extraction.value;
      AllHoldPhases(built.records, x.phases, x, titleBase, groupBase(if x.groupTitle == "" then fallbackTitle else x.groupTitle))
  {
    if extraction.None? {
      return Missing;
    }
    var x := extraction.value;
    if |x.phases| <= 1 {
      return if x.single then Single else InvalidInput;
    }
    var records := BuildMultiRecord(x, fallbackTitle, titleBase, groupBase);
    RecordsFormAGroup(x, records, GroupTitle(x, fallbackTitle), titleBase, groupBase);
    built := Group(records);
  }

  /** Distinct IDs, one group, phases numbered from zero, the total in every record. */
  ghost predicate IsGroup(records: seq<Record>) {
    && (forall i, j | 0 <= i < j < |records| :: records[i].id != records[j].id)
    && (forall i, j | 0 <= i < |records| && 0 <= j < |records| ::
          records[i].groupId == records[j].groupId && records[i].groupType == records[j].groupType)
    && (forall i | 0 <= i < |records| :: records[i].phaseSeq == i && records[i].phaseTotal == |records|)
  }

  /** A record ID that is in both captures. */
  ghost predicate SharesId(records: seq<Record>, records': seq<Record>) {
    exists i, j :: 0 <= i < |records| && 0 <= j < |records'| && records[i].id == records'[j].id
  }

  lemma RecordsFormAGroup(x: Extraction, records: seq<Record>, groupTitle: string,
                          titleBase: string -> string, groupBase: string -> string)
    requires |records| == |x.phases|
    requires forall i | 0 <= i < |records| :: records[i] == RecordAt(x, groupTitle, titleBase, groupBase, i)
    ensures IsGroup(records)
  {
    var mark := SuffixMark(TypeOf(x.groupType));
    forall i, j | 0 <= i < j < |records| ensures records[i].id != records[j].id {
      var u, v := titleBase(TitleOf(x.phases[i], i)) + mark, titleBase(TitleOf(x.phases[j], j)) + mark;
      if records[i].id == records[j].id {
        NumberedApart(u, v, i, j);
      }
    }
  }

  /** The k-th record holds the k-th of these phases. */
  ghost predicate AreMadeFrom(records: seq<Record>, raw: seq<RawPhase>, at: seq<nat>, x: Extraction,
                              titleBase: string -> string, groupId: string) {
    |records| == |at| && forall k | 0 <= k < |at| ::
      at[k] < |raw| && raw[at[k]].Object? && HoldsPhase(records[k], raw[at[k]].phase, x, k, |at|, titleBase, groupId)
  }

  /**
   * From the agent's phases array (empty when there is none) to records. An
   * array of at most one element makes a single record; a longer one makes a
   * group exactly when at least two of its first seven elements are objects,
   * and is rejected otherwise, because the multi-phase branch fills in no
   * single-record fields.
   */
  method CapturePhases(raw: seq<RawPhase>, x: Extraction, fallbackTitle: string,
                       titleBase: string -> string, groupBase: string -> string)
    returns (built: Built, ghost at: seq<nat>)
    ensures var objects := set i: nat | i < |raw| && i < 7 && raw[i].Object?;
      if |raw| <= 1 then built == Single
      else if |objects| > 1 then built.Group? && IsGroup(built.records) && |built.records| == |objects|
      else built == InvalidInput
    ensures built.Group? ==> AreObjects(raw, at) && AreMadeFrom(built.records, raw, at, x, titleBase,
      groupBase(if x.groupTitle == "" then fallbackTitle else x.groupTitle))
  {
    at := [];
    if |raw| <= 1 {
      built := BuildPhases(Some(x.(single := true, phases := [])), fallbackTitle, titleBase, groupBase);
      return;
    }
    var phases;
    phases, at := ParsePhases(raw);
    AsManyObjects(raw);
    built := BuildPhases(Some(x.(single := false, phases := phases)), fallbackTitle, titleBase, groupBase);
    if built.Group? {
      SameButPhases(built.records, raw, at, x, phases, titleBase, groupBase(GroupTitle(x, fallbackTitle)));
    }
  }

  lemma SameButPhases(records: seq<Record>, raw: seq<RawPhase>, at: seq<nat>, x: Extraction, phases: seq<Phase>,
                      titleBase: string -> string, groupId: string)
    requires |records| == |at| == |phases|
    requires forall k | 0 <= k < |at| :: at[k] < |raw| && raw[at[k]] == Object(phases[k])
    requires AllHoldPhases(records, phases, x.(single := false, phases := phases), titleBase, groupId)
    ensures AreMadeFrom(records, raw, at, x, titleBase, groupId)
  {
    forall k | 0 <= k < |at| ensures HoldsPhase(records[k], raw[at[k]].phase, x, k, |at|, titleBase, groupId) {
      assert HoldsPhase(records[k], phases[k], x.(single := false, phases := phases), k, |phases|, titleBase, groupId);
    }
  }

  lemma AsManyObjects(raw: seq<RawPhase>)
    ensures |ObjectsIn(raw, Capped(raw))| == |set i: nat | i < |raw| && i < 7 && raw[i].Object?|
  {
    ObjectsCounted(raw, Capped(raw));
    assert (set i: nat | i < |raw| && i < 7 && raw[i].Object?) == set i: nat | i < Capped(raw) && raw[i].Object?;
  }

  lemma {:induction false} ObjectsCounted(raw: seq<RawPhase>, n: nat)
    requires n <= |raw|
    ensures |ObjectsIn(raw, n)| == |set i: nat | i < n && raw[i].Object?|
  {
    if n > 0 {
      ObjectsCounted(raw, n - 1);
      var smaller, larger := set i: nat | i < n - 1 && raw[i].Object?, set i: nat | i < n && raw[i].Object?;
      assert larger == if raw[n - 1].Object? then smaller + {n - 1} else smaller;
    }
  }
}
