/**
 The static job-market data the pipeline reads: the in-demand skill catalog,
 the career definitions and the learning-resource catalog, together with
 the built-in defaults of api/main.py.
 */
module Market {
  import opened Seqs

  type Skill = string

  /** One learning resource: `{"title", "url", "type"}`. */
  datatype Resource = Resource(title: string, url: string, kind: string)

  /**
   One entry of `career_paths`: the dictionary key becomes `title`; the
   remaining fields are the entry's details.
   */
  datatype Career = Career(
    title: string,
    required: seq<Skill>,
    salaryRange: string,
    growthRate: string,
    education: string)

  /** Skill name to its list of learning resources. */
  type ResourceCatalog = map<Skill, seq<Resource>>

  /**
   Every listed skill has at least one resource, so picking one of them
   (Python's `random.choice`) never fails.
   */
  predicate ResourcesWellFormed(resources: ResourceCatalog)
  {
    forall s :: s in resources ==> |resources[s]| > 0
  }

  const DefaultCatalog: seq<Skill> := [
    "Python", "JavaScript", "Machine Learning", "Data Analysis",
    "SQL", "Cloud Computing", "Agile Methodologies", "DevOps",
    "Artificial Intelligence", "Blockchain", "Communication",
    "Critical Thinking", "Problem Solving", "Teamwork"
  ]

  const DataScientist: Career := Career(
    "Data Scientist",
    ["Python", "Machine Learning", "Data Analysis", "SQL"],
    "$80,000 - $150,000",
    "High",
    "Bachelor's or Master's in Computer Science, Statistics, or related field")

  const WebDeveloper: Career := Career(
    "Web Developer",
    ["JavaScript", "HTML/CSS", "React", "Node.js"],
    "$70,000 - $120,000",
    "Medium",
    "Bachelor's in Computer Science or self-taught with portfolio")

  const AiEngineer: Career := Career(
    "AI Engineer",
    ["Python", "Machine Learning", "Artificial Intelligence", "Deep Learning"],
    "$90,000 - $160,000",
    "Very High",
    "Master's or PhD in Computer Science or related field")

  /** `career_paths` in dictionary (insertion) order. */
  const DefaultCareers: seq<Career> := [DataScientist, WebDeveloper, AiEngineer]

  const DefaultResources: ResourceCatalog := map[
    "Python" := [
      Resource("Python for Beginners", "https://www.python.org/about/gettingstarted/", "tutorial"),
      Resource("Advanced Python Programming", "https://realpython.com/", "course")
    ],
    "JavaScript" := [
      Resource("JavaScript Fundamentals", "https://javascript.info/", "tutorial"),
      Resource("Modern JavaScript", "https://developer.mozilla.org/en-US/docs/Web/JavaScript", "documentation")
    ],
    "Machine Learning" := [
      Resource("Intro to ML", "https://www.coursera.org/learn/machine-learning", "course"),
      Resource("TensorFlow Basics", "https://www.tensorflow.org/learn", "tutorial")
    ],
    "Data Analysis" := [
      Resource("Data Analysis with Python", "https://pandas.pydata.org/docs/getting_started/index.html", "tutorial"),
      Resource("SQL for Data Analysis", "https://mode.com/sql-tutorial/", "tutorial")
    ]
  ]

  /** The built-in catalog lists each skill once. */
  lemma DefaultCatalogDistinct()
    ensures Distinct(DefaultCatalog)
  {
  }

  /** Each built-in career lists each required skill once. */
  lemma DefaultCareersDistinct()
    ensures forall c :: c in DefaultCareers ==> Distinct(c.required)
  {
  }

  /**
   Every built-in resource list is non-empty, and resources exist for
   exactly four skills, all of them in the catalog.
   */
  lemma DefaultResourcesWellFormed()
    ensures ResourcesWellFormed(DefaultResources)
    ensures DefaultResources.Keys == {"Python", "JavaScript", "Machine Learning", "Data Analysis"}
    ensures DefaultResources.Keys <= ToSet(DefaultCatalog)
  {
  }
}
