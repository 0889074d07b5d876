/**
 The recommendation pipeline of api/main.py: keyword skill extraction, the
 skill-gap set, one learning resource per gap skill, and careers ranked by
 the share of their required skills the resume shows.
 */
module Pipeline {
  import opened Seqs
  import opened Text
  import opened Market
  import opened Ranking

  /** The keyword test: the skill's lower-cased name occurs in the lower-cased text. */
  predicate Mentions(text: string, skill: Skill)
  {
    Contains(Lower(text), Lower(skill))
  }

  function MentionedIn(text: string): Skill -> bool
  {
    s => Mentions(text, s)
  }

  /**
   The catalog skills the text mentions, in catalog order (`extract_skills`).
   A short name matches inside an unrelated word; that is the source's
   behaviour and is kept.
   */
  function ExtractSkills(catalog: seq<Skill>, text: string): (r: seq<Skill>)
    ensures forall s :: s in r <==> s in catalog && Mentions(text, s)
    ensures IsSubsequence(r, catalog)
    ensures Distinct(catalog) ==> Distinct(r)
  {
    FilterIsSubsequence(catalog, MentionedIn(text));
    FilterDistinct(catalog, MentionedIn(text));
    Filter(catalog, MentionedIn(text))
  }

  /**
   For a duplicate-free catalog the extracted list is determined by what it
   must contain and that it keeps catalog order: any list with both
   properties is the extractor's output.
   */
  lemma ExtractSkillsUnique(catalog: seq<Skill>, text: string, r: seq<Skill>)
    requires Distinct(catalog)
    requires IsSubsequence(r, catalog)
    requires forall s :: s in r <==> s in catalog && Mentions(text, s)
    ensures r == ExtractSkills(catalog, text)
  {
    FilterUnique(catalog, MentionedIn(text), r);
  }

  /** Catalog skills missing from the resume, as a set (`find_skill_gaps`). */
  function FindSkillGaps(resumeSkills: seq<Skill>, marketSkills: seq<Skill>): (r: set<Skill>)
    ensures forall s :: s in r <==> s in marketSkills && s !in resumeSkills
  {
    ToSet(marketSkills) - ToSet(resumeSkills)
  }

  /**
   The gaps of an analysed resume and its extracted skills split the catalog:
   disjoint, together the whole catalog, and a catalog skill is a gap exactly
   when the text does not mention it.
   */
  lemma GapsPartitionCatalog(catalog: seq<Skill>, text: string)
    ensures var skills := ExtractSkills(catalog, text);
            var gaps := FindSkillGaps(skills, catalog);
            && gaps <= ToSet(catalog)
            && gaps !! ToSet(skills)
            && gaps + ToSet(skills) == ToSet(catalog)
            && forall s :: s in gaps <==> s in catalog && !Mentions(text, s)
  {
  }

  /** A pathway assigns one learning resource to each skill it covers. */
  type Pathway = map<Skill, Resource>

  /**
   The source draws with `random.choice`; the model receives the draw from
   the caller: `choose(skill, n)` is reduced modulo the length `n` of the
   skill's resource list, so every chooser is admissible.
   */
  type Chooser = (Skill, nat) -> nat

  /**
   `p` is a valid pathway for `gaps`: it covers exactly the gap skills that
   have resources, and gives each one a resource from that skill's own list.
   */
  predicate IsPathwayFor(p: Pathway, gaps: set<Skill>, resources: ResourceCatalog)
  {
    && p.Keys == gaps * resources.Keys
    && forall s :: s in p ==> s in resources && p[s] in resources[s]
  }

  /** One resource per gap skill that has resources (`generate_learning_pathway`). */
  function GenerateLearningPathway(gaps: set<Skill>, resources: ResourceCatalog, choose: Chooser): (r: Pathway)
    requires ResourcesWellFormed(resources)
    ensures IsPathwayFor(r, gaps, resources)
  {
    map s | s in gaps && s in resources :: resources[s][choose(s, |resources[s]|) % |resources[s]|]
  }

  /** The chooser that reproduces a given pathway. */
  function ChooserFor(p: Pathway, resources: ResourceCatalog): Chooser
  {
    (s: Skill, n: nat) =>
      if s in p && s in resources && p[s] in resources[s] then IndexOf(resources[s], p[s]) else 0
  }

  /**
   Every valid pathway is produced by some chooser, so the generator with an
   arbitrary chooser yields exactly the valid pathways: the model of the
   random pick is "some element of the list", no more and no less.
   */
  lemma PathwayChoicesComplete(p: Pathway, gaps: set<Skill>, resources: ResourceCatalog)
    requires ResourcesWellFormed(resources)
    requires IsPathwayFor(p, gaps, resources)
    ensures GenerateLearningPathway(gaps, resources, ChooserFor(p, resources)) == p
  {
    var choose := ChooserFor(p, resources);
    var g := GenerateLearningPathway(gaps, resources, choose);
    assert g.Keys == p.Keys;
    forall s | s in p ensures g[s] == p[s] {
      ChooserForPicks(p, resources, s);
    }
  }

  lemma ChooserForPicks(p: Pathway, resources: ResourceCatalog, s: Skill)
    requires s in p && s in resources && p[s] in resources[s]
    ensures var list := resources[s];
            list[ChooserFor(p, resources)(s, |list|) % |list|] == p[s]
  {
    var list := resources[s];
    var i := IndexOf(list, p[s]);
    assert ChooserFor(p, resources)(s, |list|) == i;
    SmallMod(i, |list|);
  }

  lemma SmallMod(i: nat, n: nat)
    requires i < n
    ensures i % n == i
  {
  }

  /** One entry of the career ranking. */
  datatype CareerMatch = CareerMatch(
    title: string,
    percentage: real,
    matchingSkills: seq<Skill>,
    missingSkills: seq<Skill>,
    details: Career)

  /** The ranking key. */
  function Percent(m: CareerMatch): real
  {
    m.percentage
  }

  /**
   `matched` out of `required`, as a percentage; a career that requires
   nothing scores 0 rather than dividing by zero.
   */
  function MatchPercentage(matched: nat, required: nat): (p: real)
    ensures required == 0 ==> p == 0.0
    ensures required > 0 ==> p * (required as real) == 100.0 * (matched as real)
    ensures 0.0 <= p
    ensures matched <= required ==> p <= 100.0
    ensures 0 < required && matched == required ==> p == 100.0
  {
    if required > 0 then (matched as real) / (required as real) * 100.0 else 0.0
  }

  function RequiredBy(c: Career): Skill -> bool
  {
    s => s in c.required
  }

  function AbsentFrom(skills: seq<Skill>): Skill -> bool
  {
    s => s !in skills
  }

  /**
   The per-career record of `recommend_careers`: the resume skills the career
   requires (in resume order, each as often as the resume lists it), the
   required skills the resume lacks (in required order, each as often as the
   career lists it) and the match percentage.
   */
  function MatchCareer(skills: seq<Skill>, c: Career): (r: CareerMatch)
    ensures r.title == c.title && r.details == c
    ensures forall s :: s in r.matchingSkills <==> s in skills && s in c.required
    ensures IsSubsequence(r.matchingSkills, skills)
    ensures forall s :: s in r.missingSkills <==> s in c.required && s !in skills
    ensures IsSubsequence(r.missingSkills, c.required)
    ensures forall s :: multiset(r.matchingSkills)[s] == (if s in c.required then multiset(skills)[s] else 0)
    ensures forall s :: multiset(r.missingSkills)[s] == (if s in skills then 0 else multiset(c.required)[s])
    ensures r.percentage == MatchPercentage(|r.matchingSkills|, |c.required|)
  {
    var matching := Filter(skills, RequiredBy(c));
    var missing := Filter(c.required, AbsentFrom(skills));
    FilterIsSubsequence(skills, RequiredBy(c));
    FilterIsSubsequence(c.required, AbsentFrom(skills));
    FilterCounts(skills, RequiredBy(c));
    FilterCounts(c.required, AbsentFrom(skills));
    CareerMatch(c.title, MatchPercentage(|matching|, |c.required|), matching, missing, c)
  }

  /**
   With a duplicate-free skill list the percentage never exceeds 100, and a
   career whose (duplicate-free, non-empty) requirements are all present
   scores exactly 100.
   */
  lemma MatchPercentageInRange(skills: seq<Skill>, c: Career)
    requires Distinct(skills)
    ensures MatchCareer(skills, c).percentage <= 100.0
    ensures Distinct(c.required) && |c.required| > 0 && (forall s :: s in c.required ==> s in skills)
            ==> MatchCareer(skills, c).percentage == 100.0
  {
    var m := MatchCareer(skills, c);
    FilterDistinct(skills, RequiredBy(c));
    assert Distinct(m.matchingSkills);
    DistinctWithin(m.matchingSkills, c.required);
  }

  /** The per-career records in career (dictionary) order, before ranking. */
  function MatchAll(skills: seq<Skill>, careers: seq<Career>): (r: seq<CareerMatch>)
    ensures |r| == |careers|
    ensures forall i :: 0 <= i < |careers| ==> r[i] == MatchCareer(skills, careers[i])
  {
    seq(|careers|, i requires 0 <= i < |careers| => MatchCareer(skills, careers[i]))
  }

  /**
   `recommend_careers`: the per-career records, best match first; careers
   with equal percentages keep their catalog order (the sort is stable).
   */
  function RecommendCareers(skills: seq<Skill>, careers: seq<Career>): (r: seq<CareerMatch>)
    ensures |r| == |careers|
    ensures multiset(r) == multiset(MatchAll(skills, careers))
    ensures SortedDesc(r, Percent)
    ensures IsStableSortDesc(r, MatchAll(skills, careers), Percent)
  {
    SortDescIsStableSort(MatchAll(skills, careers), Percent);
    SortDesc(MatchAll(skills, careers), Percent)
  }

  /**
   The ranking is the only list that orders the per-career records by
   non-increasing percentage while keeping ties in catalog order.
   */
  lemma RecommendCareersUnique(skills: seq<Skill>, careers: seq<Career>, r: seq<CareerMatch>)
    requires IsStableSortDesc(r, MatchAll(skills, careers), Percent)
    ensures r == RecommendCareers(skills, careers)
  {
    StableSortUnique(r, MatchAll(skills, careers), Percent);
  }
}
