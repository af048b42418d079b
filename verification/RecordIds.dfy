/**
 * The record and group IDs: a date, a domain and the first title words, with
 * the number of the phase behind it in a group. Nothing in them is random, so
 * they say when two captures get the same ID.
 */
module RecordIds {
  import opened Ranking
  import opened RecordBuilder

  const US: char := '_'

  predicate NoUnderscore(s: string) {
    forall i | 0 <= i < |s| :: s[i] != US
  }

  /** A calendar date is digits and hyphens. */
  predicate IsDate(s: string) {
    forall i | 0 <= i < |s| :: '0' <= s[i] <= '9' || s[i] == '-'
  }

  const DOMAINS: set<string> := {
    "architecture", "security", "product", "exec", "ops", "design", "data", "hr", "marketing", "incident",
    "debugging", "qa", "legal", "finance", "sales", "customer_success", "research", "risk", "general"
  }

  function WithoutUnderscores(s: string): string {
    if |s| == 0 then [] else (if s[0] == US then [] else [s[0]]) + WithoutUnderscores(s[1..])
  }

  function Join(words: seq<string>): string {
    if |words| == 0 then ""
    else if |words| == 1 then words[0]
    else words[0] + [US] + Join(words[1..])
  }

  /** Words that are alphanumeric, with or without their underscores. */
  function Kept(alnum: string -> bool): string -> bool {
    (w: string) => alnum(w) || alnum(WithoutUnderscores(w))
  }

  const SLUG_WORDS := 3

  /** words are the lower-case words of a title. */
  function Slug(words: seq<string>, alnum: string -> bool): string {
    Join(Filter(Take(words, SLUG_WORDS), Kept(alnum)))
  }

  /** tail is the slug, and in a group the mark and number of the phase. */
  function IdOf(prefix: string, date: string, domain: string, tail: string): string {
    prefix + Parted(date, Parted(domain, tail))
  }

  /** Two parts of an ID. */
  function Parted(a: string, x: string): string {
    a + ([US] + x)
  }

  lemma UnderscoreAfter(b: string, y: string, i: nat)
    requires NoUnderscore(b) && i < |Parted(b, y)| && Parted(b, y)[i] == US
    ensures i >= |b|
  {
  }

  lemma SplitAtUnderscore(a: string, x: string, b: string, y: string)
    requires NoUnderscore(a) && NoUnderscore(b) && Parted(a, x) == Parted(b, y)
    ensures a == b && x == y
  {
    var s, s' := Parted(a, x), Parted(b, y);
    assert s[|a|] == US && s'[|b|] == US;
    UnderscoreAfter(b, y, |a|);
    UnderscoreAfter(a, x, |b|);
    assert s[..|a|] == a && s'[..|b|] == b;
    assert s[|a| + 1..] == x && s'[|b| + 1..] == y;
  }

  lemma OneDomainWithUnderscore(d: string)
    requires d in DOMAINS && d != "customer_success"
    ensures NoUnderscore(d) && d != "customer"
  {
  }

  lemma SuccessIsNoOther(d: string, x: string, y: string)
    requires d in DOMAINS && d != "customer_success"
    ensures Parted(d, x) != Parted("customer_success", y)
  {
    OneDomainWithUnderscore(d);
    assert Parted("customer_success", y) == Parted("customer", Parted("success", y));
    if Parted(d, x) == Parted("customer_success", y) {
      SplitAtUnderscore(d, x, "customer", Parted("success", y));
    }
  }

  lemma SplitAtDomain(d: string, x: string, e: string, y: string)
    requires d in DOMAINS && e in DOMAINS && Parted(d, x) == Parted(e, y)
    ensures d == e && x == y
  {
    if d == e {
      assert Parted(d, x)[|d| + 1..] == x && Parted(e, y)[|e| + 1..] == y;
    } else if d == "customer_success" {
      SuccessIsNoOther(e, y, x);
    } else if e == "customer_success" {
      SuccessIsNoOther(d, x, y);
    } else {
      OneDomainWithUnderscore(d);
      OneDomainWithUnderscore(e);
      SplitAtUnderscore(d, x, e, y);
    }
  }

  lemma DropPrefix(prefix: string, x: string, y: string)
    requires prefix + x == prefix + y
    ensures x == y
  {
    assert (prefix + x)[|prefix|..] == x && (prefix + y)[|prefix|..] == y;
  }

  /** The parts of an ID can be told apart, although they are only joined by underscores. */
  lemma IdSplits(prefix: string, date: string, domain: string, tail: string, date': string, domain': string, tail': string)
    requires IsDate(date) && IsDate(date') && domain in DOMAINS && domain' in DOMAINS
    requires IdOf(prefix, date, domain, tail) == IdOf(prefix, date', domain', tail')
    ensures date == date' && domain == domain' && tail == tail'
  {
    DropPrefix(prefix, Parted(date, Parted(domain, tail)), Parted(date', Parted(domain', tail')));
    SplitAtUnderscore(date, Parted(domain, tail), date', Parted(domain', tail'));
    SplitAtDomain(domain, tail, domain', tail');
  }

  /** Two IDs are the same if and only if date, domain and the rest are. */
  lemma SameIdIff(prefix: string, date: string, domain: string, tail: string, date': string, domain': string, tail': string)
    requires IsDate(date) && IsDate(date') && domain in DOMAINS && domain' in DOMAINS
    ensures IdOf(prefix, date, domain, tail) == IdOf(prefix, date', domain', tail')
      <==> date == date' && domain == domain' && tail == tail'
  {
    if IdOf(prefix, date, domain, tail) == IdOf(prefix, date', domain', tail') {
      IdSplits(prefix, date, domain, tail, date', domain', tail');
    }
  }

  // ------------------------------------------------------------------ whole captures

  /** What the IDs of one capture have in common: its day, its domain, and how titles are split into words. */
  datatype Naming = Naming(date: string, domain: string, words: string -> seq<string>, alnum: string -> bool)

  predicate IsNaming(n: Naming) {
    IsDate(n.date) && n.domain in DOMAINS
  }

  function SlugOf(n: Naming, title: string): string {
    Slug(n.words(title), n.alnum)
  }

  function RecordBase(n: Naming): string -> string {
    (title: string) => IdOf("dec_", n.date, n.domain, SlugOf(n, title))
  }

  function PhaseId(n: Naming, title: string, mark: string, i: nat): string {
    RecordBase(n)(title) + mark + Decimal(i)
  }

  lemma PartedAppend(a: string, x: string, y: string)
    ensures Parted(a, x) + y == Parted(a, x + y)
  {
    Associate(a, [US] + x, y);
    Associate([US], x, y);
  }

  /** What is appended to an ID is appended to its last part. */
  lemma IdAppend(prefix: string, date: string, domain: string, tail: string, y: string)
    ensures IdOf(prefix, date, domain, tail) + y == IdOf(prefix, date, domain, tail + y)
  {
    Associate(prefix, Parted(date, Parted(domain, tail)), y);
    PartedAppend(date, Parted(domain, tail), y);
    PartedAppend(domain, tail, y);
  }

  lemma PhaseTail(n: Naming, title: string, mark: string, i: nat)
    ensures PhaseId(n, title, mark, i) == IdOf("dec_", n.date, n.domain, SlugOf(n, title) + mark + Decimal(i))
  {
    IdAppend("dec_", n.date, n.domain, SlugOf(n, title), mark);
    IdAppend("dec_", n.date, n.domain, SlugOf(n, title) + mark, Decimal(i));
  }

  lemma TailsSplit(slug: string, slug': string, kind: string, kind': string, i: nat, j: nat)
    requires slug + SuffixMark(kind) + Decimal(i) == slug' + SuffixMark(kind') + Decimal(j)
    ensures slug == slug' && SuffixMark(kind) == SuffixMark(kind') && i == j
  {
    var u, v := slug + SuffixMark(kind), slug' + SuffixMark(kind');
    NumberedApart(u, v, i, j);
    assert (u + Decimal(i))[..|u|] == u && (v + Decimal(j))[..|v|] == v;
    assert u[..|slug|] == slug && v[..|slug'|] == slug';
    assert u[|slug|..] == SuffixMark(kind) && v[|slug'|..] == SuffixMark(kind');
  }

  /** The words of a single record's title spell the phase's mark and number. */
  predicate SpellsPhase(n: Naming, title: string, n': Naming, title': string, kind: string, i: nat) {
    n.date == n'.date && n.domain == n'.domain && SlugOf(n, title) == SlugOf(n', title') + SuffixMark(kind) + Decimal(i)
  }

  lemma SingleIsPhase(n: Naming, title: string, n': Naming, title': string, kind: string, i: nat)
    requires IsNaming(n) && IsNaming(n')
    requires RecordBase(n)(title) == PhaseId(n', title', SuffixMark(kind), i)
    ensures SpellsPhase(n, title, n', title', kind, i)
  {
    PhaseTail(n', title', SuffixMark(kind), i);
    IdSplits("dec_", n.date, n.domain, SlugOf(n, title), n'.date, n'.domain, SlugOf(n', title') + SuffixMark(kind) + Decimal(i));
  }

  lemma PhaseIsSingle(n: Naming, title: string, n': Naming, title': string, kind: string, i: nat)
    requires SpellsPhase(n, title, n', title', kind, i)
    ensures RecordBase(n)(title) == PhaseId(n', title', SuffixMark(kind), i)
  {
    PhaseTail(n', title', SuffixMark(kind), i);
  }

  /** A single record gets the ID of a phase exactly when its title words spell the phase's mark and number. */
  lemma SingleMeetsPhaseIff(n: Naming, title: string, n': Naming, title': string, kind: string, i: nat)
    requires IsNaming(n) && IsNaming(n')
    ensures RecordBase(n)(title) == PhaseId(n', title', SuffixMark(kind), i) <==> SpellsPhase(n, title, n', title', kind, i)
  {
    if SpellsPhase(n, title, n', title', kind, i) {
      PhaseIsSingle(n, title, n', title', kind, i);
    } else if RecordBase(n)(title) == PhaseId(n', title', SuffixMark(kind), i) {
      SingleIsPhase(n, title, n', title', kind, i);
    }
  }

  /** What the ID of a phase is made of. */
  datatype Key = Key(date: string, domain: string, slug: string, mark: string, number: nat)

  predicate IsKey(k: Key) {
    IsDate(k.date) && k.domain in DOMAINS && (k.mark == "_p" || k.mark == "_b")
  }

  function Text(k: Key): string {
    IdOf("dec_", k.date, k.domain, k.slug + k.mark + Decimal(k.number))
  }

  predicate Bears(r: Record, k: Key) {
    r.id == Text(k)
  }

  lemma SameTextSameKey(k: Key, k': Key)
    requires IsKey(k) && IsKey(k') && Text(k) == Text(k')
    ensures k == k'
  {
    IdSplits("dec_", k.date, k.domain, k.slug + k.mark + Decimal(k.number),
             k'.date, k'.domain, k'.slug + k'.mark + Decimal(k'.number));
    TailsSplit(k.slug, k'.slug, KindOf(k.mark), KindOf(k'.mark), k.number, k'.number);
  }

  function KindOf(mark: string): string {
    if mark == "_b" then "bundle" else ""
  }

  lemma BearersShareIff(r: Record, k: Key, r': Record, k': Key)
    requires IsKey(k) && IsKey(k') && Bears(r, k) && Bears(r', k')
    ensures r.id == r'.id <==> k == k'
  {
    if r.id == r'.id {
      SameTextSameKey(k, k');
    }
  }

  ghost predicate HaveKeys(records: seq<Record>, keys: seq<Key>) {
    |records| == |keys| && forall i | 0 <= i < |keys| :: IsKey(keys[i]) && Bears(records[i], keys[i])
  }

  ghost predicate ShareKey(keys: seq<Key>, keys': seq<Key>) {
    exists i, j :: 0 <= i < |keys| && 0 <= j < |keys'| && keys[i] == keys'[j]
  }

  lemma SharesIdIffKey(records: seq<Record>, keys: seq<Key>, records': seq<Record>, keys': seq<Key>)
    requires HaveKeys(records, keys) && HaveKeys(records', keys')
    ensures SharesId(records, records') <==> ShareKey(keys, keys')
  {
    if SharesId(records, records') {
      var i, j :| 0 <= i < |records| && 0 <= j < |records'| && records[i].id == records'[j].id;
      BearersShareIff(records[i], keys[i], records'[j], keys'[j]);
    }
    if ShareKey(keys, keys') {
      var i, j :| 0 <= i < |keys| && 0 <= j < |keys'| && keys[i] == keys'[j];
      BearersShareIff(records[i], keys[i], records'[j], keys'[j]);
    }
  }

  function PhaseSlug(x: Extraction, n: Naming, i: nat): string
    requires i < |x.phases|
  {
    SlugOf(n, TitleOf(x.phases[i], i))
  }

  function KeyAt(x: Extraction, n: Naming, i: nat): Key
    requires i < |x.phases|
  {
    Key(n.date, n.domain, PhaseSlug(x, n, i), SuffixMark(TypeOf(x.groupType)), i)
  }

  function KeysOf(x: Extraction, n: Naming): seq<Key> {
    seq(|x.phases|, i requires 0 <= i < |x.phases| => KeyAt(x, n, i))
  }

  lemma RecordBearsKey(x: Extraction, title: string, n: Naming, groups: string -> string, i: nat)
    requires IsNaming(n) && i < |x.phases|
    ensures IsKey(KeyAt(x, n, i)) && Bears(RecordAt(x, title, RecordBase(n), groups, i), KeyAt(x, n, i))
  {
    PhaseTail(n, TitleOf(x.phases[i], i), SuffixMark(TypeOf(x.groupType)), i);
  }

  /** The records that BuildMultiRecord builds bear the keys of their phases. */
  lemma BuiltHaveKeys(records: seq<Record>, x: Extraction, title: string, n: Naming, groups: string -> string)
    requires IsNaming(n) && |records| == |x.phases|
    requires forall i | 0 <= i < |records| :: records[i] == RecordAt(x, title, RecordBase(n), groups, i)
    ensures HaveKeys(records, KeysOf(x, n))
  {
    forall i: nat | i < |records| ensures IsKey(KeysOf(x, n)[i]) && Bears(records[i], KeysOf(x, n)[i]) {
      RecordBearsKey(x, title, n, groups, i);
    }
  }

  /** Of one day, one domain and one kind. */
  predicate SameCircumstances(x: Extraction, n: Naming, x': Extraction, n': Naming) {
    n.date == n'.date && n.domain == n'.domain && SuffixMark(TypeOf(x.groupType)) == SuffixMark(TypeOf(x'.groupType))
  }

  predicate SameSlugAt(x: Extraction, n: Naming, x': Extraction, n': Naming, i: nat) {
    i < |x.phases| && i < |x'.phases| && PhaseSlug(x, n, i) == PhaseSlug(x', n', i)
  }

  lemma KeysAlikeIff(x: Extraction, n: Naming, i: nat, x': Extraction, n': Naming, j: nat)
    requires i < |x.phases| && j < |x'.phases|
    ensures KeyAt(x, n, i) == KeyAt(x', n', j) <==> i == j && SameCircumstances(x, n, x', n') && SameSlugAt(x, n, x', n', i)
  {
  }

  ghost predicate SameSlugSomewhere(x: Extraction, n: Naming, x': Extraction, n': Naming) {
    exists i: nat :: SameSlugAt(x, n, x', n', i)
  }

  lemma SharedKeyIsAlike(x: Extraction, n: Naming, x': Extraction, n': Naming)
    requires ShareKey(KeysOf(x, n), KeysOf(x', n'))
    ensures SameCircumstances(x, n, x', n') && SameSlugSomewhere(x, n, x', n')
  {
    var i: nat, j: nat :| i < |x.phases| && j < |x'.phases| && KeysOf(x, n)[i] == KeysOf(x', n')[j];
    KeysAlikeIff(x, n, i, x', n', j);
  }

  lemma AlikeSharesKey(x: Extraction, n: Naming, x': Extraction, n': Naming)
    requires SameCircumstances(x, n, x', n') && SameSlugSomewhere(x, n, x', n')
    ensures ShareKey(KeysOf(x, n), KeysOf(x', n'))
  {
    var i: nat :| SameSlugAt(x, n, x', n', i);
    KeysAlikeIff(x, n, i, x', n', i);
    assert KeysOf(x, n)[i] == KeysOf(x', n')[i];
  }

  /**
   * Two multi-phase captures share a record ID if and only if they are of one
   * day, one domain and one kind, and in some position both phase titles have
   * the same first words.
   */
  lemma CapturesShareIdIff(records: seq<Record>, x: Extraction, n: Naming, records': seq<Record>, x': Extraction, n': Naming)
    requires HaveKeys(records, KeysOf(x, n)) && HaveKeys(records', KeysOf(x', n'))
    ensures SharesId(records, records') <==> SameCircumstances(x, n, x', n') && SameSlugSomewhere(x, n, x', n')
  {
    SharesIdIffKey(records, KeysOf(x, n), records', KeysOf(x', n'));
    if ShareKey(KeysOf(x, n), KeysOf(x', n')) {
      SharedKeyIsAlike(x, n, x', n');
    } else if SameCircumstances(x, n, x', n') && SameSlugSomewhere(x, n, x', n') {
      AlikeSharesKey(x, n, x', n');
    }
  }

  /** What an ID looks like. */
  lemma PhaseIdReads()
    ensures IdOf("dec_", "1-2", "ops", "x_p3") == "dec_1-2_ops_x_p3" && Decimal(3) == "3"
  {
    assert Parted("ops", "x_p3") == "ops_x_p3";
    assert Parted("1-2", "ops_x_p3") == "1-2_ops_x_p3";
  }

  /** A word with an underscore counts like the same word without it; one of other characters leaves no gap. */
  lemma SlugReads(alnum: string -> bool)
    requires alnum("ab") && alnum("c") && !alnum("a_b") && !alnum("-")
    ensures Slug(["a_b", "-", "c"], alnum) == "a_b_c"
  {
    assert WithoutUnderscores("a_b") == "ab" && WithoutUnderscores("-") == "-" by {
      assert "a_b"[1..] == "_b" && "_b"[1..] == "b" && "b"[1..] == "" && "-"[1..] == "";
      assert WithoutUnderscores("b") == "b" && WithoutUnderscores("_b") == "b";
    }
    var words := ["a_b", "-", "c"];
    assert words[1..] == ["-", "c"] && words[1..][1..] == ["c"];
    assert Filter(["c"], Kept(alnum)) == ["c"] && Filter(["-", "c"], Kept(alnum)) == ["c"];
    assert Filter(words, Kept(alnum)) == ["a_b", "c"];
    assert Join(["a_b", "c"]) == "a_b_c";
  }

  /** Only the first three words of a title count. */
  lemma ThreeWordsDecide(words: seq<string>, words': seq<string>, alnum: string -> bool)
    requires |words| >= 3 && |words'| >= 3 && words[..3] == words'[..3]
    ensures Slug(words, alnum) == Slug(words', alnum)
  {
    assert Take(words, SLUG_WORDS) == Take(words', SLUG_WORDS);
  }

  /** A single record titled "use postgres p0" and the first phase of a group, titled "use postgres", get one ID. */
  lemma SingleCanMeetPhase(alnum: string -> bool)
    requires alnum("use") && alnum("postgres") && alnum("p0")
    ensures Slug(["use", "postgres", "p0"], alnum) == Slug(["use", "postgres"], alnum) + SuffixMark("") + Decimal(0)
  {
    var two, three := ["use", "postgres"], ["use", "postgres", "p0"];
    AllKept(two, alnum);
    AllKept(three, alnum);
    assert three[1..] == ["postgres", "p0"] && three[1..][1..] == ["p0"] && two[1..] == ["postgres"];
    assert Join(["postgres", "p0"]) == "postgres_p0";
    assert Join(three) == "use_postgres_p0" && Join(two) == "use_postgres";
  }

  lemma {:induction false} AllKept(words: seq<string>, alnum: string -> bool)
    requires forall w | w in words :: alnum(w)
    ensures Filter(words, Kept(alnum)) == words
  {
    if |words| > 0 {
      AllKept(words[1..], alnum);
    }
  }
}
