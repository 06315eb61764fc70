/**
 * Discovery of where the content API stores a work's skill, and the
 * accessor that reads it once the shape is known.
 *
 * A probe asks for one sample work with the query of one shape. Its outcome
 * is either a failure (the query threw, or returned an error) or the data,
 * holding the first node if there is one.
 */
module SkillShape {
  import opened Values
  import opened Works

  datatype Shape = Nested | Direct | Meta | Unknown

  /** The work query that goes with a shape; `unknown` falls back to the nested query. */
  datatype Query = NestedQuery | DirectQuery | MetaQuery

  datatype ProbeOutcome = ProbeFailed | ProbeData(sample: Option<Work>)

  /** The order in which the probes run. */
  function Rank(s: Shape): nat {
    match s
    case Nested => 0
    case Direct => 1
    case Meta => 2
    case Unknown => 3
  }

  function QueryFor(s: Shape): (q: Query)
    ensures s == Unknown ==> q == NestedQuery
  {
    match s
    case Nested => NestedQuery
    case Direct => DirectQuery
    case Meta => MetaQuery
    case Unknown => NestedQuery
  }

  predicate IsSkillKey(key: string) {
    key == "skill" || key == "_skill"
  }

  /** `metaData.find((meta) => meta.key === "skill" || meta.key === "_skill")`. */
  function FindSkillMeta(entries: seq<MetaEntry>): (r: Option<MetaEntry>)
    ensures r.Some? <==> exists i :: 0 <= i < |entries| && IsSkillKey(entries[i].key)
    ensures r.Some? ==> exists i :: 0 <= i < |entries| && r.value == entries[i]
                          && IsSkillKey(entries[i].key)
                          && forall m :: 0 <= m < i ==> !IsSkillKey(entries[m].key)
    decreases |entries|
  {
    if |entries| == 0 then None
    else if IsSkillKey(entries[0].key) then Some(entries[0])
    else
      var r := FindSkillMeta(entries[1..]);
      assert forall i :: 1 <= i < |entries| ==> entries[i] == entries[1..][i - 1];
      r
  }

  /** The nested probe succeeds: the sample has a `works` group whose `skill` is defined. */
  predicate NestedFound(o: ProbeOutcome): (found: bool)
    ensures found <==> o.ProbeData? && o.sample.Some? && GetSkill(o.sample, Nested) != Undefined
  {
    o.ProbeData? && o.sample.Some? && o.sample.value.works.Some?
    && o.sample.value.works.value.skill != Undefined
  }

  /** The direct probe succeeds: the sample's own `skill` is defined. */
  predicate DirectFound(o: ProbeOutcome): (found: bool)
    ensures found <==> o.ProbeData? && o.sample.Some? && GetSkill(o.sample, Direct) != Undefined
  {
    o.ProbeData? && o.sample.Some? && o.sample.value.skill != Undefined
  }

  /** The meta probe succeeds: the sample's `metaData` has a "skill" or "_skill" entry. */
  predicate MetaFound(o: ProbeOutcome): (found: bool)
    ensures found <==> o.ProbeData? && o.sample.Some? && o.sample.value.metaData.Some?
                       && exists i :: 0 <= i < |o.sample.value.metaData.value|
                                      && IsSkillKey(o.sample.value.metaData.value[i].key)
  {
    o.ProbeData? && o.sample.Some? && o.sample.value.metaData.Some?
    && FindSkillMeta(o.sample.value.metaData.value).Some?
  }

  /** Whether the probe of shape `s` found the skill. */
  predicate FoundBy(s: Shape, nested: ProbeOutcome, direct: ProbeOutcome, meta: ProbeOutcome) {
    match s
    case Nested => NestedFound(nested)
    case Direct => DirectFound(direct)
    case Meta => MetaFound(meta)
    case Unknown => false
  }

  /**
   * `determineSkillStructure` of app/all-works/page.js: the first shape, in
   * the order nested, direct, meta, whose probe found the skill; a failed
   * probe is a miss; when every probe misses, the nested shape.
   */
  function DetermineSkillStructure(nested: ProbeOutcome, direct: ProbeOutcome, meta: ProbeOutcome): (r: Shape)
    ensures r != Unknown
    ensures FoundBy(r, nested, direct, meta)
            || (r == Nested && forall s :: !FoundBy(s, nested, direct, meta))
    ensures forall s :: Rank(s) < Rank(r) ==> !FoundBy(s, nested, direct, meta)
  {
    if NestedFound(nested) then Nested
    else if DirectFound(direct) then Direct
    else if MetaFound(meta) then Meta
    else Nested
  }

  /** The nested shape wins whenever its probe succeeds, whatever the other probes return. */
  lemma NestedHasPriority(nested: ProbeOutcome, direct: ProbeOutcome, meta: ProbeOutcome)
    requires NestedFound(nested)
    ensures DetermineSkillStructure(nested, direct, meta) == Nested
  {
  }

  /**
   * The access-method decision of components/FetchLowerLayer/WorkOther.js,
   * once no probe is loading: the same priority, but "unknown" when every
   * probe misses.
   */
  function DecideAccess(nested: ProbeOutcome, direct: ProbeOutcome, meta: ProbeOutcome): (r: Shape)
    ensures r == Unknown <==> forall s :: !FoundBy(s, nested, direct, meta)
    ensures r != Unknown ==> FoundBy(r, nested, direct, meta)
    ensures forall s :: Rank(s) < Rank(r) ==> !FoundBy(s, nested, direct, meta)
  {
    if NestedFound(nested) then assert FoundBy(Nested, nested, direct, meta); Nested
    else if DirectFound(direct) then assert FoundBy(Direct, nested, direct, meta); Direct
    else if meta.ProbeData? && meta.sample.Some? && meta.sample.value.metaData.Some? then
      (if FindSkillMeta(meta.sample.value.metaData.value).Some?
       then assert FoundBy(Meta, nested, direct, meta); Meta
       else Unknown)
    else Unknown
  }

  /** The client-side decision and the server-side resolution pick the same
      work query; they differ only in naming the fallback "unknown". */
  lemma DecisionAgreesWithResolution(nested: ProbeOutcome, direct: ProbeOutcome, meta: ProbeOutcome)
    ensures QueryFor(DecideAccess(nested, direct, meta))
            == QueryFor(DetermineSkillStructure(nested, direct, meta))
    ensures DecideAccess(nested, direct, meta) != Unknown
            ==> DecideAccess(nested, direct, meta) == DetermineSkillStructure(nested, direct, meta)
    ensures DecideAccess(nested, direct, meta) == Unknown
            ==> DetermineSkillStructure(nested, direct, meta) == Nested
  {
  }

  /**
   * `getSkill` (app/all-works/WorksClient.js and the copy in
   * components/FetchLowerLayer/WorkOther.js): read the skill at the place the
   * shape names; for any other shape, and for the meta shape of a work without
   * `metaData`, fall back to the nested skill if defined, then the direct
   * skill if defined, then "". A missing work gives "".
   */
  function GetSkill(work: Option<Work>, shape: Shape): (r: JsValue)
    ensures work.None? ==> r == Str("")
    ensures r == Undefined ==> work.Some? && shape != Unknown
    ensures work.Some? && shape == Nested
            ==> r == (if work.value.works.Some? then work.value.works.value.skill else Undefined)
    ensures work.Some? && shape == Direct ==> r == work.value.skill
    ensures work.Some? && (shape == Unknown || (shape == Meta && work.value.metaData.None?))
            ==> r == FallbackSkill(work.value)
    ensures work.Some? && shape == Meta && work.value.metaData.Some?
            ==> var entry := FindSkillMeta(work.value.metaData.value);
                && (entry.None? ==> r == Undefined)
                && (entry.Some? ==> r == entry.value.value)
  {
    match work
    case None => Str("")
    case Some(w) =>
      if shape == Nested then
        (match w.works case Some(g) => g.skill case None => Undefined)
      else if shape == Direct then w.skill
      else if shape == Meta && w.metaData.Some? then
        (match FindSkillMeta(w.metaData.value) case Some(e) => e.value case None => Undefined)
      else FallbackSkill(w)
  }

  /** The fallback chain: nested skill if defined, else direct skill if defined, else "". */
  function FallbackSkill(w: Work): (r: JsValue)
    ensures r != Undefined
    ensures w.works.Some? && w.works.value.skill != Undefined ==> r == w.works.value.skill
    ensures (w.works.None? || w.works.value.skill == Undefined) && w.skill != Undefined ==> r == w.skill
  {
    if w.works.Some? && w.works.value.skill != Undefined then w.works.value.skill
    else if w.skill != Undefined then w.skill
    else Str("")
  }

  /**
   * On every work on which the probe of a shape succeeds, the accessor of
   * that shape reads what the probe found: the defined `works.skill` for the
   * nested shape, the defined `skill` for the direct shape, the value of the
   * first "skill"/"_skill" entry for the meta shape.
   */
  lemma AccessorReadsWhatProbeFound(w: Work, s: Shape)
    requires s != Unknown
    requires FoundBy(s, ProbeData(Some(w)), ProbeData(Some(w)), ProbeData(Some(w)))
    ensures s != Meta ==> GetSkill(Some(w), s) != Undefined
    ensures s == Nested ==> GetSkill(Some(w), s) == w.works.value.skill
    ensures s == Direct ==> GetSkill(Some(w), s) == w.skill
    ensures s == Meta ==> GetSkill(Some(w), s) == FindSkillMeta(w.metaData.value).value.value
  {
  }

  /**
   * After resolution, the accessor of the chosen shape reads, from the sample
   * that decided it, the defined `works.skill` (nested), the defined `skill`
   * (direct) or the skill entry (meta), unless resolution fell back for want
   * of any success.
   */
  lemma ResolvedAccessorOnSample(nested: ProbeOutcome, direct: ProbeOutcome, meta: ProbeOutcome)
    requires exists s :: FoundBy(s, nested, direct, meta)
    ensures var r := DetermineSkillStructure(nested, direct, meta);
            var probe := match r case Nested => nested case Direct => direct case _ => meta;
            && probe.ProbeData? && probe.sample.Some?
            && (r != Meta ==> GetSkill(probe.sample, r) != Undefined)
            && (r == Nested ==> GetSkill(probe.sample, r) == probe.sample.value.works.value.skill)
            && (r == Direct ==> GetSkill(probe.sample, r) == probe.sample.value.skill)
            && (r == Meta ==> GetSkill(probe.sample, r)
                              == FindSkillMeta(probe.sample.value.metaData.value).value.value)
  {
    var r := DetermineSkillStructure(nested, direct, meta);
    var probe := match r case Nested => nested case Direct => direct case _ => meta;
    assert FoundBy(r, nested, direct, meta);
    AccessorReadsWhatProbeFound(probe.sample.value, r);
  }

  /** The state of one `useQuery` probe of components/FetchLowerLayer/WorkOther.js. */
  datatype QueryState = Skipped | Loading | Errored | Loaded(sample: Option<Work>)

  /** A skipped or failed query leaves its `data` undefined, which every check treats as a miss. */
  function DataOf(q: QueryState): (o: ProbeOutcome)
    ensures q.Loaded? <==> o.ProbeData?
  {
    match q
    case Loaded(s) => ProbeData(s)
    case _ => ProbeFailed
  }

  /** The direct probe is skipped before mount, while the nested probe loads,
      or once the nested probe found the skill. */
  predicate DirectSkipped(isClient: bool, nested: QueryState): (skip: bool)
    ensures !isClient ==> skip
    ensures !skip ==> !nested.Loading? && forall direct, meta :: DecideAccess(DataOf(nested), direct, meta) != Nested
  {
    !isClient || nested.Loading? || NestedFound(DataOf(nested))
  }

  /** The meta probe is skipped before mount, while either earlier probe
      loads, or once either found the skill. */
  predicate MetaSkipped(isClient: bool, nested: QueryState, direct: QueryState): (skip: bool)
    ensures DirectSkipped(isClient, nested) ==> skip
    ensures !skip ==> !direct.Loading?
                      && forall meta :: DecideAccess(DataOf(nested), DataOf(direct), meta) == Meta
                                        || DecideAccess(DataOf(nested), DataOf(direct), meta) == Unknown
  {
    !isClient || nested.Loading? || direct.Loading?
    || NestedFound(DataOf(nested)) || DirectFound(DataOf(direct))
  }

  /** Skipping a probe never changes the decision: a skipped probe's answer
      would not have been looked at. */
  lemma SkippingIsSafe(nested: QueryState, direct: QueryState, meta: QueryState)
    requires !nested.Loading? && !direct.Loading?
    ensures DirectSkipped(true, nested)
            ==> DecideAccess(DataOf(nested), DataOf(Skipped), DataOf(meta))
                == DecideAccess(DataOf(nested), DataOf(direct), DataOf(meta))
    ensures MetaSkipped(true, nested, direct)
            ==> DecideAccess(DataOf(nested), DataOf(direct), DataOf(Skipped))
                == DecideAccess(DataOf(nested), DataOf(direct), DataOf(meta))
  {
  }

  /**
   * The state the decision effect of components/FetchLowerLayer/WorkOther.js
   * keeps: whether the component is mounted on the client, the access method
   * (None until decided) and the final work query (None until decided).
   */
  class AccessDecision {
    var isClient: bool
    var accessMethod: Option<Shape>
    var finalQuery: Option<Query>

    ghost predicate Valid()
      reads this
    {
      (accessMethod.None? <==> finalQuery.None?)
      && (accessMethod.Some? ==> finalQuery == Some(QueryFor(accessMethod.value)))
    }

    constructor ()
      ensures Valid()
      ensures !isClient && accessMethod == None && finalQuery == None
    {
      isClient := false;
      accessMethod := None;
      finalQuery := None;
    }

    /** The mount effect: `setIsClient(true)`. */
    method Mount()
      requires Valid()
      modifies this
      ensures Valid()
      ensures isClient && accessMethod == old(accessMethod) && finalQuery == old(finalQuery)
    {
      isClient := true;
    }

    /**
     * The decision effect: nothing happens before mount or while any probe
     * is loading; otherwise the access method and the final query are set
     * from the probes' data.
     */
    method Decide(nested: QueryState, direct: QueryState, meta: QueryState)
      requires Valid()
      modifies this
      ensures Valid()
      ensures isClient == old(isClient)
      ensures !isClient || nested.Loading? || direct.Loading? || meta.Loading?
              ==> accessMethod == old(accessMethod) && finalQuery == old(finalQuery)
      ensures isClient && !nested.Loading? && !direct.Loading? && !meta.Loading?
              ==> accessMethod == Some(DecideAccess(DataOf(nested), DataOf(direct), DataOf(meta)))
                  && !MainQuerySkipped()
    {
      if !isClient || nested.Loading? || direct.Loading? || meta.Loading? {
        return;
      }
      var m := DecideAccess(DataOf(nested), DataOf(direct), DataOf(meta));
      accessMethod := Some(m);
      finalQuery := Some(QueryFor(m));
    }

    /** The work query actually run: `finalQuery || DEFAULT_FALLBACK_QUERY`. */
    function MainQuery(): (q: Query)
      reads this
      requires Valid()
      ensures accessMethod.Some? ==> q == QueryFor(accessMethod.value)
      ensures accessMethod.None? ==> q == NestedQuery
    {
      finalQuery.GetOr(NestedQuery)
    }

    /** Whether the main query is still held back: before mount or before a decision. */
    predicate MainQuerySkipped(): (skip: bool)
      reads this
      requires Valid()
      ensures !isClient || accessMethod.None? ==> skip
      ensures !skip ==> MainQuery() == QueryFor(accessMethod.value)
    {
      !isClient || finalQuery.None?
    }

    /** The skill shown on a card: `getSkill` with the current access method
        (an undecided method takes the fallback chain). */
    function SkillOf(work: Option<Work>): (r: JsValue)
      reads this
      ensures accessMethod.None? ==> r == GetSkill(work, Unknown)
      ensures accessMethod.Some? ==> r == GetSkill(work, accessMethod.value)
    {
      GetSkill(work, accessMethod.GetOr(Unknown))
    }
  }
}
