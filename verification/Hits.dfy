/** Search hits and the record metadata they are made from. */
module Hits {
  import opened Prelude
  import opened Ranking

  /** The timestamp field of a record: absent, a string (with the instant it parses to, if any), or a number of seconds. */
  datatype Stamp = NoStamp | Text(raw: string, instant: Option<int>) | Seconds(seconds: int)

  /** A decoded metadata object; a field is None when it is absent or has another type. */
  datatype Metadata = Metadata(
    id: Option<string>,
    title: Option<string>,
    domain: Option<string>,
    status: Option<string>,
    certainty: Option<string>,
    insight: Option<string>,
    groupId: Option<string>,
    groupType: Option<string>,
    phaseSeq: Option<int>,
    phaseTotal: Option<int>,
    timestamp: Stamp)

  datatype Hit = Hit(
    recordId: string,
    title: string,
    domain: string,
    status: string,
    certainty: string,
    score: real,
    adjusted: real,
    insight: string,
    groupId: Option<string>,
    groupType: Option<string>,
    phaseSeq: Option<int>,
    phaseTotal: Option<int>,
    metadata: Metadata)

  function StrOr(o: Option<string>, default: string): string {
    if o.Some? && o.value != "" then o.value else default
  }

  function NonEmpty(o: Option<string>): Option<string> {
    if o.Some? && o.value != "" then o else None
  }

  function ToSearchHit(m: Metadata, score: real): Hit {
    Hit(StrOr(m.id, "unknown"), StrOr(m.title, "Untitled"), StrOr(m.domain, "general"), StrOr(m.status, "unknown"),
        StrOr(m.certainty, "unknown"), score, 0.0, if m.insight.Some? then m.insight.value else "",
        NonEmpty(m.groupId), NonEmpty(m.groupType), m.phaseSeq, m.phaseTotal, m)
  }

  /** o is a string that says something. */
  predicate Says(o: Option<string>, text: string) {
    o == Some(text) && text != ""
  }

  /** Field by field what a hit takes from its metadata and what stands in when there is nothing to take. */
  lemma HitFields(m: Metadata, score: real)
    ensures var h := ToSearchHit(m, score);
      && h.score == score && h.metadata == m && h.phaseSeq == m.phaseSeq && h.phaseTotal == m.phaseTotal
      && (Says(m.id, h.recordId) || (h.recordId == "unknown" && (m.id == None || m.id == Some(""))))
      && (Says(m.title, h.title) || (h.title == "Untitled" && (m.title == None || m.title == Some(""))))
      && (Says(m.domain, h.domain) || (h.domain == "general" && (m.domain == None || m.domain == Some(""))))
      && (Says(m.status, h.status) || (h.status == "unknown" && (m.status == None || m.status == Some(""))))
      && (Says(m.certainty, h.certainty) || (h.certainty == "unknown" && (m.certainty == None || m.certainty == Some(""))))
      && (m.insight == Some(h.insight) || (m.insight == None && h.insight == ""))
      && (if m.groupId == Some("") then h.groupId == None else h.groupId == m.groupId)
      && (if m.groupType == Some("") then h.groupType == None else h.groupType == m.groupType)
  {
  }

  /** Sort keys. */
  function ScoreOf(h: Hit): real { h.score }

  function AdjustedOf(h: Hit): real { h.adjusted }

  /** phase_seq, zero when absent; negated so that descending by key is ascending by phase. */
  function PhaseOf(h: Hit): int {
    if h.phaseSeq.Some? then h.phaseSeq.value else 0
  }

  function PhaseKey(h: Hit): real { -(PhaseOf(h) as real) }

  function Ids(hits: seq<Hit>): set<string> {
    set h | h in hits :: h.recordId
  }

  function IdOf(h: Hit): string { h.recordId }

  ghost predicate DistinctIds(hits: seq<Hit>) {
    DistinctBy(hits, IdOf)
  }

  lemma IdsAppend(hits: seq<Hit>, h: Hit)
    ensures Ids(hits + [h]) == Ids(hits) + {h.recordId}
  {
    assert h in hits + [h];
    assert forall g | g in hits :: g in hits + [h];
  }
}
