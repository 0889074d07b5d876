# Career-guidance recommendation core, modelled in Dafny

This project models the backend logic of an AI-powered career guidance service
(`api/main.py`). A student submits resume text. The service then:

- extracts the catalog skills the text mentions, using case-insensitive substring matching;
- computes the skill gaps, meaning the catalog skills the resume lacks;
- picks one learning resource for each gap skill that has resources;
- ranks the careers by the share of their required skills that the resume shows.

The result is stored in an in-memory student store. The store is keyed by
sequential ids `student_1`, `student_2`, …. Further requests read a record,
mark a pathway skill as done, replace the profile, or look up a skill's
resources.

Files and modules:

- `seqs.dfy` (`Seqs`): order-preserving filtering (the list comprehensions of the source), sub-sequences, duplicate-freedom, list/set cardinality.
- `text.dfy` (`Text`): ASCII lower-casing and substring containment (`str.lower()`, `needle in hay`).
- `market.dfy` (`Market`): skills, careers, resources, and the built-in catalog, career paths and resource table.
- `ranking.dfy` (`Ranking`): a stable descending sort by a real key (`sorted(..., reverse=True)`), with its characterisation.
- `pipeline.dfy` (`Pipeline`): `extract_skills`, `find_skill_gaps`, `generate_learning_pathway`, `recommend_careers`.
- `store.dfy` (`Store`): the student store, its handlers, and the store as a state machine with an invariant.
- `scenarios.dfy` (`Scenarios`): concrete consequences for the built-in data and for the worked example.

Modelling choices:

- The store is an immutable `map` from id to record.
- `Store.AnalyzeResume` never fails. It returns the new store paired with the response.
- `Store.UpdateProgress` and `Store.UpdateProfile` return a `Result` holding either the new store or an error (`StudentNotFound`, `InvalidSkill`).
- `Store.GetStudentInfo` and `Store.GetResources` return a `Result` holding either the stored record or resource list, or an error (`StudentNotFound`, `ResourcesNotFound`).
- In the request loop (`Store.Step`), reads and failed requests leave the store as it was.
- The skill catalog, career definitions and resource table are parameters (`Store.Env`). The built-in defaults are constants in `Market`.
- `random.choice` becomes an injected chooser, reduced modulo the list length. Each resume-analysis request carries its own chooser (`Store.Request.Analyze`), so two analyses of the same text may draw different resources, as fresh random draws do. `Pipeline.PathwayChoicesComplete` shows that every valid pathway comes from some chooser. So the model is exactly "some element of that skill's list".
- The match percentage is the exact real `matched / required * 100`, or 0 when a career requires nothing.
- The skill-gap list is built from a set in the source, so its order is arbitrary. It is modelled as a `set`.
- A profile request is modelled field by field as `Unset | Null | Value(v)`. This is what `dict(exclude_unset=True)` keeps: unset fields are dropped and an explicit null is kept.

Two behaviours of the code worth stating explicitly:

- **Profile update.** `update_profile` replaces the stored profile wholesale (`api/main.py:271`). Fields set by an earlier update are lost (`Store.UpdateProfileLastWins`, `Scenarios.ProfileUpdateDropsEarlierFields`).
- **Invalid skills.** `update_progress` checks the keys of the progress map (`api/main.py:260`). `Store.EmptyStoreInvariant` and `Store.RunPreservesInvariant` show that these equal the pathway's keys for every record reachable from the empty store.

## Model

| member | source | states |
|---|---|---|
| Pipeline.ExtractSkills | api/main.py:128-135 | a skill is extracted exactly when it is a catalog entry whose lower-cased name occurs in the lower-cased text; the result keeps catalog order (a sub-sequence of the catalog) and has no duplicates when the catalog has none |
| Pipeline.ExtractSkillsUnique | api/main.py:128-135 | for a duplicate-free catalog, any catalog sub-sequence holding exactly the mentioned skills is the extractor's output, so membership plus catalog order determine the result |
| Pipeline.FindSkillGaps | api/main.py:137-138 | a skill is a gap exactly when it is a market skill and not a resume skill |
| Pipeline.GapsPartitionCatalog | api/main.py:226-227 | gaps and extracted skills are disjoint and together make up the catalog; a catalog skill is a gap exactly when the text does not mention it |
| Pipeline.GenerateLearningPathway | api/main.py:140-145 | the pathway covers exactly the gap skills that have resources (others are silently omitted) and maps each to a resource from that skill's own list |
| Pipeline.PathwayChoicesComplete | api/main.py:144 | every valid pathway is produced by some chooser, so the injected chooser models an arbitrary pick from each list |
| Pipeline.MatchPercentage | api/main.py:152 | 0 when nothing is required, otherwise the percentage times the required count equals 100 times the matched count; never negative; at most 100 when matched does not exceed required; exactly 100 when all are matched |
| Pipeline.MatchCareer | api/main.py:149-159 | one record per career with its title and details; matching skills are the resume skills the career requires, in resume order and with each as often as the resume lists it; missing skills are the required skills absent from the resume, in required order and with each as often as the career lists it; the percentage is computed from the matching count |
| Pipeline.MatchPercentageInRange | api/main.py:151-152 | with a duplicate-free skill list the percentage is at most 100, and it is exactly 100 when every skill of a non-empty, duplicate-free requirement list is present |
| Pipeline.RecommendCareers | api/main.py:147-161 | one entry per career, a permutation of the per-career records, sorted by non-increasing percentage, with equal percentages kept in career order |
| Pipeline.RecommendCareersUnique | api/main.py:161 | the ranking is the only sorted arrangement of the per-career records that keeps ties in career order |
| Ranking.SortDesc | api/main.py:161 | the sorted list is a permutation of the input and its keys never increase |
| Ranking.SortIsStable | api/main.py:161 | for every key value, the items with that key keep their input order (Python's sort is stable) |
| Ranking.StableSortUnique | api/main.py:161 | any list that is sorted non-increasingly and stable with respect to the input equals the sort's output |
| Text.ContainsIffOccurs | api/main.py:133 | the substring test holds exactly when the needle occurs at some position of the haystack (the empty needle occurs everywhere) |
| Market.DefaultCatalogDistinct | api/main.py:55-60 | the built-in skill catalog lists each skill once |
| Market.DefaultCareersDistinct | api/main.py:61-80 | each built-in career lists each required skill once |
| Market.DefaultResourcesWellFormed | api/main.py:87-104 | every built-in resource list is non-empty; resources exist for exactly Python, JavaScript, Machine Learning and Data Analysis, all catalog skills |
| Store.NatToStringInjective | api/main.py:232 | different numbers print as different decimal strings |
| Store.NextStudentIdFresh | api/main.py:232 | in a store holding exactly `student_1`..`student_n`, the id `student_{n+1}` is not taken |
| Store.NewRecord | api/main.py:226-240 | the stored record's skills, gaps, pathway and ranking are the pipeline's results for the text; its progress map has exactly the pathway's skills, all false; its profile is empty |
| Store.AnalyzeResume | api/main.py:224-248 | the new record is stored under `student_{size+1}`, all other records are unchanged, and the response carries the record's skills, gaps and pathway and the first min(3, career count) entries of its ranking |
| Store.GetStudentInfo | api/main.py:250-254 | an unknown id is StudentNotFound; otherwise the stored record is returned unchanged |
| Store.UpdateProgress | api/main.py:256-264 | an unknown id is StudentNotFound; a skill outside that student's progress map is InvalidSkill; otherwise only that flag becomes true and no other flag, field or student changes |
| Store.UpdateProgressIdempotent | api/main.py:263 | marking a skill done twice has the same effect as marking it once |
| Store.UpdateProgressCommutes | api/main.py:263 | two successful progress updates give the same store in either order |
| Store.UpdateProfile | api/main.py:266-272 | an unknown id is StudentNotFound; otherwise the profile becomes exactly the supplied fields and nothing else changes |
| Store.UpdateProfileLastWins | api/main.py:271 | a second profile update erases every trace of the first |
| Store.GetResources | api/main.py:274-278 | an unknown skill is ResourcesNotFound; otherwise the skill's resource list is returned unchanged |
| Store.EmptyStoreInvariant | api/main.py:125 | the initial empty store satisfies the store invariant |
| Store.AnalyzeResumePreservesInvariant | api/main.py:232-240 | on a store with sequential ids, analysis uses a fresh id, grows the store by one, and keeps the ids sequential and every record consistent |
| Store.UpdateProgressPreservesInvariant | api/main.py:256-264 | a successful progress update keeps the store invariant |
| Store.UpdateProfilePreservesInvariant | api/main.py:266-272 | a successful profile update keeps the store invariant |
| Store.StepPreservesInvariant | api/main.py:224-278 | every request keeps the store invariant: ids stay `student_1`..`student_n`, progress keys equal pathway keys, gaps and skills partition the catalog, and pathways stay valid |
| Store.RunPreservesInvariant | api/main.py:224-278 | any sequence of requests keeps the store invariant, whatever resource draw each analysis makes |
| Store.AnalyzeAfterRunIsFresh | api/main.py:232 | starting from the empty store and serving any requests one at a time, each analysis with its own resource draw, resume analysis never reuses an id |
| Scenarios.ExampleExtraction | api/main.py:128-138 | "I know Python and SQL" against the catalog Python, JavaScript, SQL extracts Python and SQL, and JavaScript is the only gap |
| Scenarios.ExampleDataScientistMatch | api/main.py:149-159 | with Python and SQL, the Data Scientist record has matching skills Python and SQL, missing skills Machine Learning and Data Analysis, and scores 50 |
| Scenarios.WebDeveloperCapped | api/main.py:54-73 | with the built-in catalog a Web Developer never scores above 25, because only JavaScript of its required skills is a catalog skill |
| Scenarios.AiEngineerCapped | api/main.py:74-79 | with the built-in catalog an AI Engineer never scores above 75, because "Deep Learning" is not a catalog skill |
| Scenarios.ProfileUpdateDropsEarlierFields | api/main.py:271 | after an update setting only the email and one setting only the name, the stored profile has the name and no email |

## Left out

- FastAPI app creation, CORS middleware, the HTML root page, route decorators, Pydantic request validation and `uvicorn.run` (`api/main.py:15-29, 106-122, 164-222, 285-286`). These are framework wiring.
- The spaCy model and its `SimpleNLP` fallback (`api/main.py:31-45`). They are a foreign library, and the pipeline never uses `nlp`.
- Reading and writing `job_market_data.json` (`api/main.py:47-84`). This is file I/O. The catalog and careers are parameters, and the built-in defaults are the constants in `Market`.
- `get_market_data` (`api/main.py:280-282`). It returns the static data unchanged; in the model that is the `Env` value itself.
- The response message bodies. Examples are "Progress updated successfully" and the `detail` strings of the HTTP errors. Only the error kind and its status code (`Store.Error.StatusCode`) are modelled.
- The randomness of `random.choice`. The draw is an injected `Chooser`.
- `Pipeline.GenerateLearningPathway` requires every resource list to be non-empty. `random.choice` on an empty list raises, and the built-in table has no empty list (`Market.DefaultResourcesWellFormed`).
- Pipeline.RecommendCareers: the source sorts by the percentage rounded to one decimal place (`round(..., 1)`); the model sorts by the exact percentage. Two careers whose percentages differ but round to the same value are a tie in the source, which keeps career order; the model ranks them by their exact values.
- Pipeline.MatchPercentage: the value is exact, not the rounded binary float the source stores.
- Text.Lower: lower-cases ASCII letters only, where Python's `str.lower()` applies full Unicode case mapping.
- Pipeline.MatchPercentageInRange: the 100 bound is proved only for a duplicate-free skill list. The source does not guard against duplicates. A catalog listing a skill twice extracts it twice and can push a percentage above 100.
- Concurrent requests. The source's `len(students) + 1` id scheme can hand out the same id twice when requests race. The model serves requests one at a time, and freshness is proved only for that case.
- `api/app.js`, `api/components/pages/ResumeAnalyzerPage.js` and `api/components/Header.js`. These are React UI, browser storage and `fetch` calls, with no core logic.
