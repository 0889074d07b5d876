/**
 The in-memory student store of api/main.py and its request handlers:
 resume analysis creates a record under a sequential id, and the other
 handlers read a record, mark a learning-pathway skill as done, replace the
 profile, or look up the resources of a skill.

 The store is a value; every handler returns the new store or an error, and
 an error leaves the store as it was.
 */
module Store {
  import opened Seqs
  import opened Market
  import opened Pipeline

  /** The HTTP errors the handlers raise. */
  datatype Error = StudentNotFound | ResourcesNotFound | InvalidSkill
  {
    function StatusCode(): nat
    {
      if InvalidSkill? then 400 else 404
    }
  }

  datatype Result<T> = Ok(value: T) | Err(error: Error)

  /**
   One optional profile field as `dict(exclude_unset=True)` sees it: left out
   of the request, sent as null, or sent with a value.
   */
  datatype Field<T> = Unset | Null | Value(value: T)

  datatype CareerGoal = CareerGoal(title: string, reason: Field<string>)

  datatype Profile = Profile(
    name: Field<string>,
    email: Field<string>,
    education: Field<string>,
    careerGoal: Field<CareerGoal>)

  /** The `{}` profile a new record starts with. */
  const EmptyProfile: Profile := Profile(Unset, Unset, Unset, Unset)

  datatype StudentRecord = StudentRecord(
    skills: seq<Skill>,
    skillGaps: set<Skill>,
    pathway: Pathway,
    careerMatches: seq<CareerMatch>,
    progress: map<Skill, bool>,
    profile: Profile)

  type StudentId = string

  type Students = map<StudentId, StudentRecord>

  /**
   What the handlers read but never change: the skill catalog, the career
   definitions and the resource catalog. The random draws are not part of
   it: each resume analysis receives its own chooser.
   */
  datatype Env = Env(
    catalog: seq<Skill>,
    careers: seq<Career>,
    resources: ResourceCatalog)

  predicate ValidEnv(env: Env)
  {
    ResourcesWellFormed(env.resources)
  }

  /** The response of resume analysis. */
  datatype Analysis = Analysis(
    studentId: StudentId,
    skills: seq<Skill>,
    skillGaps: set<Skill>,
    pathway: Pathway,
    careerMatches: seq<CareerMatch>)

  // ---------------------------------------------------------------------
  // Student ids: "student_" followed by a decimal number
  // ---------------------------------------------------------------------

  function DigitChar(d: nat): (c: char)
    requires d < 10
    ensures '0' <= c <= '9'
  {
    ('0' as int + d) as char
  }

  /** Decimal notation without leading zeros, as Python's `str(n)`. */
  function NatToString(n: nat): (r: string)
    ensures 0 < |r|
    ensures forall i :: 0 <= i < |r| ==> '0' <= r[i] <= '9'
    ensures |r| == 1 <==> n < 10
    decreases n
  {
    if n < 10 then [DigitChar(n)] else NatToString(n / 10) + [DigitChar(n % 10)]
  }

  /** Different numbers print differently. */
  lemma {:induction false} NatToStringInjective(a: nat, b: nat)
    requires NatToString(a) == NatToString(b)
    ensures a == b
    decreases a
  {
    var sa, sb := NatToString(a), NatToString(b);
    if a >= 10 && b >= 10 {
      var pa, pb := NatToString(a / 10), NatToString(b / 10);
      assert sa == pa + [DigitChar(a % 10)];
      assert sb == pb + [DigitChar(b % 10)];
      assert sa[|sa| - 1] == DigitChar(a % 10);
      assert sb[|sb| - 1] == DigitChar(b % 10);
      assert a % 10 == b % 10;
      assert pa == sa[..|sa| - 1];
      assert pb == sb[..|sb| - 1];
      NatToStringInjective(a / 10, b / 10);
    }
  }

  const IdPrefix: string := "student_"

  function StudentIdOf(n: nat): (id: StudentId)
    ensures |id| > |IdPrefix| && id[..|IdPrefix|] == IdPrefix
  {
    IdPrefix + NatToString(n)
  }

  lemma StudentIdInjective(a: nat, b: nat)
    ensures StudentIdOf(a) == StudentIdOf(b) ==> a == b
  {
    if StudentIdOf(a) == StudentIdOf(b) {
      assert NatToString(a) == StudentIdOf(a)[|IdPrefix|..];
      assert NatToString(b) == StudentIdOf(b)[|IdPrefix|..];
      NatToStringInjective(a, b);
    }
  }

  /** The ids `student_1` .. `student_n`. */
  function IdsUpTo(n: nat): set<StudentId>
    decreases n
  {
    if n == 0 then {} else IdsUpTo(n - 1) + {StudentIdOf(n)}
  }

  /** No id numbered above `n` is among `student_1` .. `student_n`. */
  lemma {:induction false} IdsUpToExcludesLater(n: nat, m: nat)
    requires n < m
    ensures StudentIdOf(m) !in IdsUpTo(n)
    decreases n
  {
    if n > 0 {
      StudentIdInjective(n, m);
      IdsUpToExcludesLater(n - 1, m);
    }
  }

  /** The store holds exactly `student_1` .. `student_n`, where n is its size. */
  predicate SequentialIds(students: Students)
  {
    students.Keys == IdsUpTo(|students|)
  }

  /** The id the next analysis assigns: store size plus one. */
  function NextStudentId(students: Students): StudentId
  {
    StudentIdOf(|students| + 1)
  }

  /**
   In a store with sequential ids the next id is not taken, so a new record
   never overwrites an existing one.
   */
  lemma NextStudentIdFresh(students: Students)
    requires SequentialIds(students)
    ensures NextStudentId(students) !in students
  {
    IdsUpToExcludesLater(|students|, |students| + 1);
  }

  // ---------------------------------------------------------------------
  // Handlers
  // ---------------------------------------------------------------------

  function Min(a: int, b: int): int
  {
    if a <= b then a else b
  }

  /**
   The record resume analysis stores: the pipeline's results for the text,
   every pathway skill marked not done, and an empty profile.
   */
  function NewRecord(env: Env, text: string, choose: Chooser): (rec: StudentRecord)
    requires ValidEnv(env)
    ensures forall s :: s in rec.skills <==> s in env.catalog && Mentions(text, s)
    ensures IsSubsequence(rec.skills, env.catalog)
    ensures forall s :: s in rec.skillGaps <==> s in env.catalog && !Mentions(text, s)
    ensures IsPathwayFor(rec.pathway, rec.skillGaps, env.resources)
    ensures rec.careerMatches == RecommendCareers(rec.skills, env.careers)
    ensures rec.progress.Keys == rec.pathway.Keys
    ensures forall k :: k in rec.progress ==> !rec.progress[k]
    ensures rec.profile == EmptyProfile
  {
    var skills := ExtractSkills(env.catalog, text);
    var gaps := FindSkillGaps(skills, env.catalog);
    var pathway := GenerateLearningPathway(gaps, env.resources, choose);
    var matches := RecommendCareers(skills, env.careers);
    var progress := map s | s in pathway :: false;
    StudentRecord(skills, gaps, pathway, matches, progress, EmptyProfile)
  }

  /** `students[id] = record`: the one entry is set, the rest stay. */
  function AddRecord(students: Students, id: StudentId, record: StudentRecord): (after: Students)
    ensures after.Keys == students.Keys + {id}
    ensures after[id] == record
    ensures forall other :: other in students && other != id ==> after[other] == students[other]
  {
    students[id := record]
  }

  /** `matches[:3]`: the first three entries, or all of them when there are fewer. */
  function TopMatches(matches: seq<CareerMatch>): (top: seq<CareerMatch>)
    ensures |top| == Min(3, |matches|)
    ensures top == matches[..|top|]
  {
    matches[..Min(3, |matches|)]
  }

  /**
   `analyze_resume`: stores the new record under the next sequential id,
   leaves every other record alone, and answers with the record's skills,
   gaps and pathway and the top three career matches (fewer when there are
   fewer careers).
   */
  function AnalyzeResume(env: Env, students: Students, text: string, choose: Chooser): (r: (Students, Analysis))
    requires ValidEnv(env)
    ensures r.1.studentId == NextStudentId(students)
    ensures r.0.Keys == students.Keys + {r.1.studentId}
    ensures forall id :: id in students && id != r.1.studentId ==> r.0[id] == students[id]
    ensures r.0[r.1.studentId] == NewRecord(env, text, choose)
    ensures r.1.skills == r.0[r.1.studentId].skills
    ensures r.1.skillGaps == r.0[r.1.studentId].skillGaps
    ensures r.1.pathway == r.0[r.1.studentId].pathway
    ensures |r.1.careerMatches| == Min(3, |env.careers|)
    ensures r.1.careerMatches == r.0[r.1.studentId].careerMatches[..|r.1.careerMatches|]
  {
    var record := NewRecord(env, text, choose);
    var id := NextStudentId(students);
    var top := TopMatches(record.careerMatches);
    (AddRecord(students, id, record), Analysis(id, record.skills, record.skillGaps, record.pathway, top))
  }

  /** `get_student_info`: the stored record, or StudentNotFound. */
  function GetStudentInfo(students: Students, id: StudentId): (r: Result<StudentRecord>)
    ensures r.Ok? <==> id in students
    ensures r.Ok? ==> r.value == students[id]
    ensures r.Err? ==> r.error == StudentNotFound
  {
    if id in students then Ok(students[id]) else Err(StudentNotFound)
  }

  /**
   `update_progress`: marks one skill of a student's pathway as done. An
   unknown student is StudentNotFound; a skill outside that student's
   progress map is InvalidSkill. Nothing but that one flag changes.
   */
  function UpdateProgress(students: Students, id: StudentId, skill: Skill): (r: Result<Students>)
    ensures id !in students ==> r == Err(StudentNotFound)
    ensures id in students && skill !in students[id].progress ==> r == Err(InvalidSkill)
    ensures r.Ok? <==> id in students && skill in students[id].progress
    ensures r.Ok? ==>
              && r.value.Keys == students.Keys
              && (forall other :: other in students && other != id ==> r.value[other] == students[other])
              && r.value[id].progress.Keys == students[id].progress.Keys
              && r.value[id].progress[skill]
              && (forall k :: k in students[id].progress && k != skill ==>
                               r.value[id].progress[k] == students[id].progress[k])
              && r.value[id].(progress := students[id].progress) == students[id]
  {
    if id !in students then
      Err(StudentNotFound)
    else if skill !in students[id].progress then
      Err(InvalidSkill)
    else
      var rec := students[id];
      Ok(students[id := rec.(progress := rec.progress[skill := true])])
  }

  /**
   `update_profile`: replaces the stored profile by the fields of the
   request, wholesale; fields an earlier update set are not kept.
   */
  function UpdateProfile(students: Students, id: StudentId, profile: Profile): (r: Result<Students>)
    ensures r.Ok? <==> id in students
    ensures r.Err? ==> r.error == StudentNotFound
    ensures r.Ok? ==>
              && r.value.Keys == students.Keys
              && (forall other :: other in students && other != id ==> r.value[other] == students[other])
              && r.value[id].profile == profile
              && r.value[id].(profile := students[id].profile) == students[id]
  {
    if id !in students then Err(StudentNotFound)
    else Ok(students[id := students[id].(profile := profile)])
  }

  /** `get_resources`: the resource list of a skill, or ResourcesNotFound. */
  function GetResources(resources: ResourceCatalog, skill: Skill): (r: Result<seq<Resource>>)
    ensures r.Ok? <==> skill in resources
    ensures r.Ok? ==> r.value == resources[skill]
    ensures r.Err? ==> r.error == ResourcesNotFound
  {
    if skill in resources then Ok(resources[skill]) else Err(ResourcesNotFound)
  }

  // ---------------------------------------------------------------------
  // Properties of the handlers
  // ---------------------------------------------------------------------

  /** Marking a skill done twice has the effect of marking it once. */
  lemma UpdateProgressIdempotent(students: Students, id: StudentId, skill: Skill)
    ensures var once := UpdateProgress(students, id, skill);
            once.Ok? ==> UpdateProgress(once.value, id, skill) == once
  {
    var once := UpdateProgress(students, id, skill);
    if once.Ok? {
      var rec := once.value[id];
      assert rec.progress[skill := true] == rec.progress;
      assert once.value[id := rec] == once.value;
    }
  }

  /** Marks on different skills (or students) can be applied in either order. */
  lemma UpdateProgressCommutes(students: Students, id1: StudentId, skill1: Skill, id2: StudentId, skill2: Skill)
    requires UpdateProgress(students, id1, skill1).Ok?
    requires UpdateProgress(students, id2, skill2).Ok?
    ensures UpdateProgress(UpdateProgress(students, id1, skill1).value, id2, skill2).Ok?
    ensures UpdateProgress(UpdateProgress(students, id2, skill2).value, id1, skill1).Ok?
    ensures UpdateProgress(UpdateProgress(students, id1, skill1).value, id2, skill2).value
         == UpdateProgress(UpdateProgress(students, id2, skill2).value, id1, skill1).value
  {
    var a := UpdateProgress(UpdateProgress(students, id1, skill1).value, id2, skill2).value;
    var b := UpdateProgress(UpdateProgress(students, id2, skill2).value, id1, skill1).value;
    if id1 == id2 {
      assert a[id1].progress == b[id1].progress;
    }
    assert a.Keys == b.Keys;
  }

  /**
   Only the last profile update counts: an earlier update leaves nothing
   behind once a later one replaces the profile.
   */
  lemma UpdateProfileLastWins(students: Students, id: StudentId, first: Profile, second: Profile)
    requires id in students
    ensures UpdateProfile(UpdateProfile(students, id, first).value, id, second) == UpdateProfile(students, id, second)
  {
    var mid := UpdateProfile(students, id, first).value;
    assert id in mid;
    var a := UpdateProfile(mid, id, second).value;
    var b := UpdateProfile(students, id, second).value;
    assert a == students[id := students[id].(profile := second)];
    assert b == students[id := students[id].(profile := second)];
  }

  // ---------------------------------------------------------------------
  // The store as a state machine
  // ---------------------------------------------------------------------

  /**
   One request to the service. A resume analysis carries its own chooser:
   every call of the source draws afresh, so two analyses of the same text
   may pick different resources.
   */
  datatype Request =
    | Analyze(text: string, choose: Chooser)
    | ReadStudent(id: StudentId)
    | MarkDone(id: StudentId, skill: Skill)
    | ReplaceProfile(id: StudentId, profile: Profile)
    | ReadResources(skill: Skill)

  /** The store after one request; reads and failed requests change nothing. */
  function Step(env: Env, students: Students, req: Request): Students
    requires ValidEnv(env)
  {
    match req
    case Analyze(text, choose) => AnalyzeResume(env, students, text, choose).0
    case ReadStudent(_) => students
    case MarkDone(id, skill) =>
      var r := UpdateProgress(students, id, skill);
      if r.Ok? then r.value else students
    case ReplaceProfile(id, profile) =>
      var r := UpdateProfile(students, id, profile);
      if r.Ok? then r.value else students
    case ReadResources(_) => students
  }

  /** The store after a sequence of requests, served one at a time. */
  function Run(env: Env, students: Students, reqs: seq<Request>): Students
    requires ValidEnv(env)
    decreases |reqs|
  {
    if |reqs| == 0 then students else Run(env, Step(env, students, reqs[0]), reqs[1..])
  }

  /**
   A record is consistent with the data it was computed from: its progress
   map has exactly the pathway's skills, its gaps and skills split the
   catalog, and its pathway is valid for its gaps.
   */
  predicate RecordConsistent(env: Env, rec: StudentRecord)
  {
    && rec.progress.Keys == rec.pathway.Keys
    && rec.skillGaps !! ToSet(rec.skills)
    && rec.skillGaps + ToSet(rec.skills) == ToSet(env.catalog)
    && IsPathwayFor(rec.pathway, rec.skillGaps, env.resources)
  }

  predicate StoreInvariant(env: Env, students: Students)
  {
    && SequentialIds(students)
    && forall id :: id in students ==> RecordConsistent(env, students[id])
  }

  lemma EmptyStoreInvariant(env: Env)
    ensures StoreInvariant(env, map[])
  {
    assert IdsUpTo(0) == {};
  }

  /** A freshly analysed record is consistent. */
  lemma NewRecordConsistent(env: Env, text: string, choose: Chooser)
    requires ValidEnv(env)
    ensures RecordConsistent(env, NewRecord(env, text, choose))
  {
    var rec := NewRecord(env, text, choose);
    assert rec.skills == ExtractSkills(env.catalog, text);
    assert rec.skillGaps == FindSkillGaps(rec.skills, env.catalog);
    GapsPartitionCatalog(env.catalog, text);
  }

  /**
   Resume analysis on a store with sequential ids adds one fresh record and
   keeps the ids sequential and every record consistent.
   */
  lemma AnalyzeResumePreservesInvariant(env: Env, students: Students, text: string, choose: Chooser)
    requires ValidEnv(env)
    requires StoreInvariant(env, students)
    ensures var after := AnalyzeResume(env, students, text, choose).0;
            && NextStudentId(students) !in students
            && |after| == |students| + 1
            && StoreInvariant(env, after)
  {
    var after := AnalyzeResume(env, students, text, choose).0;
    var id := NextStudentId(students);
    NextStudentIdFresh(students);
    assert after.Keys == students.Keys + {id};
    assert |after| == |students| + 1 by {
      assert |after.Keys| == |students.Keys| + 1;
    }
    assert IdsUpTo(|after|) == IdsUpTo(|students|) + {id};
    NewRecordConsistent(env, text, choose);
    assert forall other :: other in after ==> RecordConsistent(env, after[other]) by {
      forall other | other in after ensures RecordConsistent(env, after[other]) {
        if other != id {
          assert after[other] == students[other];
        }
      }
    }
  }

  /** Marking a skill done keeps the store invariant. */
  lemma UpdateProgressPreservesInvariant(env: Env, students: Students, id: StudentId, skill: Skill)
    requires StoreInvariant(env, students)
    requires UpdateProgress(students, id, skill).Ok?
    ensures StoreInvariant(env, UpdateProgress(students, id, skill).value)
  {
    var after := UpdateProgress(students, id, skill).value;
    assert |after| == |students| by {
      assert after.Keys == students.Keys;
    }
    assert RecordConsistent(env, after[id]);
  }

  /** Replacing a profile keeps the store invariant. */
  lemma UpdateProfilePreservesInvariant(env: Env, students: Students, id: StudentId, profile: Profile)
    requires StoreInvariant(env, students)
    requires UpdateProfile(students, id, profile).Ok?
    ensures StoreInvariant(env, UpdateProfile(students, id, profile).value)
  {
    var after := UpdateProfile(students, id, profile).value;
    assert |after| == |students| by {
      assert after.Keys == students.Keys;
    }
    assert RecordConsistent(env, after[id]);
  }

  /** Every request keeps the store invariant. */
  lemma StepPreservesInvariant(env: Env, students: Students, req: Request)
    requires ValidEnv(env)
    requires StoreInvariant(env, students)
    ensures StoreInvariant(env, Step(env, students, req))
  {
    match req
    case Analyze(text, choose) =>
      AnalyzeResumePreservesInvariant(env, students, text, choose);
    case ReadStudent(_) =>
    case MarkDone(id, skill) =>
      if UpdateProgress(students, id, skill).Ok? {
        UpdateProgressPreservesInvariant(env, students, id, skill);
      }
    case ReplaceProfile(id, profile) =>
      if UpdateProfile(students, id, profile).Ok? {
        UpdateProfilePreservesInvariant(env, students, id, profile);
      }
    case ReadResources(_) =>
  }

  /** Any sequence of requests keeps the store invariant. */
  lemma {:induction false} RunPreservesInvariant(env: Env, students: Students, reqs: seq<Request>)
    requires ValidEnv(env)
    requires StoreInvariant(env, students)
    ensures StoreInvariant(env, Run(env, students, reqs))
    decreases |reqs|
  {
    if |reqs| > 0 {
      StepPreservesInvariant(env, students, reqs[0]);
      RunPreservesInvariant(env, Step(env, students, reqs[0]), reqs[1..]);
    }
  }

  /**
   Starting from the empty store and served one request at a time, resume
   analysis always assigns an id no record has.
   */
  lemma AnalyzeAfterRunIsFresh(env: Env, reqs: seq<Request>, text: string, choose: Chooser)
    requires ValidEnv(env)
    ensures var students := Run(env, map[], reqs);
            AnalyzeResume(env, students, text, choose).1.studentId !in students
  {
    EmptyStoreInvariant(env);
    RunPreservesInvariant(env, map[], reqs);
    NextStudentIdFresh(Run(env, map[], reqs));
  }
}
