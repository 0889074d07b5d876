/**
 Concrete consequences of the model for the built-in data and for a
 small worked example.
 */
module Scenarios {
  import opened Seqs
  import opened Text
  import opened Market
  import opened Pipeline
  import opened Store

  /** A needle whose first character is absent from the haystack does not occur in it. */
  lemma {:induction false} NotContainedWithoutFirstChar(hay: string, needle: string)
    requires |needle| > 0
    requires needle[0] !in hay
    ensures !Contains(hay, needle)
    decreases |hay|
  {
    if |hay| > 0 {
      assert needle[0] !in hay[1..] by {
        forall i | 0 <= i < |hay[1..]| ensures hay[1..][i] != needle[0] {
          assert hay[1..][i] == hay[i + 1];
        }
      }
      NotContainedWithoutFirstChar(hay[1..], needle);
      if |needle| <= |hay| {
        assert hay[..|needle|][0] == hay[0];
      }
    }
  }

  const ExampleText: string := "I know Python and SQL"

  const ExampleCatalog: seq<Skill> := ["Python", "JavaScript", "SQL"]

  lemma ExampleLowered()
    ensures Lower(ExampleText) == "i know python and sql"
  {
  }

  lemma ExampleMentionsPython()
    ensures Mentions(ExampleText, "Python")
  {
    var lowered := Lower(ExampleText);
    ExampleLowered();
    assert Lower("Python") == "python";
    assert OccursAt(lowered, "python", 7);
    ContainsIffOccurs(lowered, "python");
  }

  lemma ExampleMentionsSql()
    ensures Mentions(ExampleText, "SQL")
  {
    var lowered := Lower(ExampleText);
    ExampleLowered();
    assert Lower("SQL") == "sql";
    assert OccursAt(lowered, "sql", 18);
    ContainsIffOccurs(lowered, "sql");
  }

  lemma ExampleOmitsJavaScript()
    ensures !Mentions(ExampleText, "JavaScript")
  {
    var lowered := Lower(ExampleText);
    ExampleLowered();
    assert Lower("JavaScript") == "javascript";
    NotContainedWithoutFirstChar(lowered, "javascript");
  }

  lemma ExampleCatalogDistinct()
    ensures Distinct(ExampleCatalog)
  {
  }

  /**
   The worked example: from "I know Python and SQL" and a catalog of Python,
   JavaScript and SQL the extractor keeps Python and SQL, and JavaScript is
   the only gap.
   */
  lemma ExampleExtraction()
    ensures ExtractSkills(ExampleCatalog, ExampleText) == ["Python", "SQL"]
    ensures FindSkillGaps(ExtractSkills(ExampleCatalog, ExampleText), ExampleCatalog) == {"JavaScript"}
  {
    ExampleMentionsPython();
    ExampleMentionsSql();
    ExampleOmitsJavaScript();
    ExampleCatalogDistinct();
    var r: seq<Skill> := ["Python", "SQL"];
    assert IsSubsequence(r[1..], ExampleCatalog[2..]);
    assert IsSubsequence(r[1..], ExampleCatalog[1..]);
    assert IsSubsequence(r, ExampleCatalog);
    forall s ensures s in r <==> s in ExampleCatalog && Mentions(ExampleText, s) {
    }
    ExtractSkillsUnique(ExampleCatalog, ExampleText, r);
  }

  lemma ExampleMatchingSkills()
    ensures MatchCareer(["Python", "SQL"], DataScientist).matchingSkills == ["Python", "SQL"]
  {
    var p := RequiredBy(DataScientist);
    FilterCons("SQL", [], p);
    assert Filter(["SQL"], p) == ["SQL"];
    FilterCons("Python", ["SQL"], p);
    assert Filter(["Python", "SQL"], p) == ["Python", "SQL"];
  }

  lemma ExampleMissingTail()
    ensures Filter(["Data Analysis", "SQL"], AbsentFrom(["Python", "SQL"])) == ["Data Analysis"]
  {
    var p := AbsentFrom(["Python", "SQL"]);
    FilterCons("SQL", [], p);
    assert Filter(["SQL"], p) == [];
    FilterCons("Data Analysis", ["SQL"], p);
  }

  lemma ExampleMissingSkills()
    ensures MatchCareer(["Python", "SQL"], DataScientist).missingSkills == ["Machine Learning", "Data Analysis"]
  {
    var p := AbsentFrom(["Python", "SQL"]);
    ExampleMissingTail();
    FilterCons("Machine Learning", ["Data Analysis", "SQL"], p);
    assert Filter(["Machine Learning", "Data Analysis", "SQL"], p) == ["Machine Learning", "Data Analysis"];
    FilterCons("Python", ["Machine Learning", "Data Analysis", "SQL"], p);
    assert Filter(DataScientist.required, p) == ["Machine Learning", "Data Analysis"];
  }

  /**
   The worked example continued: with Python and SQL the Data Scientist
   career matches on exactly those two of its four skills, scoring 50.
   */
  lemma ExampleDataScientistMatch()
    ensures var m := MatchCareer(["Python", "SQL"], DataScientist);
            && m.matchingSkills == ["Python", "SQL"]
            && m.missingSkills == ["Machine Learning", "Data Analysis"]
            && m.percentage == 50.0
  {
    ExampleMatchingSkills();
    ExampleMissingSkills();
    var m := MatchCareer(["Python", "SQL"], DataScientist);
    assert m.percentage == MatchPercentage(2, 4);
  }

  /** Three of the four skills a Web Developer needs are not catalog skills. */
  lemma WebSkillsOutsideCatalog()
    ensures "HTML/CSS" !in DefaultCatalog && "React" !in DefaultCatalog && "Node.js" !in DefaultCatalog
  {
  }

  /** One of the four skills an AI Engineer needs is not a catalog skill. */
  lemma DeepLearningOutsideCatalog()
    ensures "Deep Learning" !in DefaultCatalog
  {
  }

  /**
   With the built-in catalog a Web Developer can never score above 25: of
   its four required skills only JavaScript is a catalog skill, so only it
   can ever be extracted.
   */
  lemma WebDeveloperCapped(text: string)
    ensures MatchCareer(ExtractSkills(DefaultCatalog, text), WebDeveloper).percentage <= 25.0
  {
    var skills := ExtractSkills(DefaultCatalog, text);
    var m := MatchCareer(skills, WebDeveloper);
    DefaultCatalogDistinct();
    WebSkillsOutsideCatalog();
    FilterDistinct(skills, RequiredBy(WebDeveloper));
    forall s | s in m.matchingSkills ensures s in ["JavaScript"] {
      assert s in DefaultCatalog;
      assert s == "JavaScript" || s == "HTML/CSS" || s == "React" || s == "Node.js";
    }
    DistinctWithin(m.matchingSkills, ["JavaScript"]);
    assert m.percentage == MatchPercentage(|m.matchingSkills|, 4);
  }

  /**
   With the built-in catalog an AI Engineer can never score above 75:
   "Deep Learning" is not a catalog skill.
   */
  lemma AiEngineerCapped(text: string)
    ensures MatchCareer(ExtractSkills(DefaultCatalog, text), AiEngineer).percentage <= 75.0
  {
    var skills := ExtractSkills(DefaultCatalog, text);
    var m := MatchCareer(skills, AiEngineer);
    var reachable: seq<Skill> := ["Python", "Machine Learning", "Artificial Intelligence"];
    DefaultCatalogDistinct();
    DeepLearningOutsideCatalog();
    FilterDistinct(skills, RequiredBy(AiEngineer));
    forall s | s in m.matchingSkills ensures s in reachable {
      assert s in DefaultCatalog;
      assert s == "Python" || s == "Machine Learning" || s == "Artificial Intelligence" || s == "Deep Learning";
    }
    DistinctWithin(m.matchingSkills, reachable);
    assert m.percentage == MatchPercentage(|m.matchingSkills|, 4);
  }

  /**
   Profile updates overwrite rather than merge: after an update that sets
   only the email and a later one that sets only the name, the stored
   profile has no email.
   */
  lemma ProfileUpdateDropsEarlierFields(students: Students, id: StudentId, email: string, name: string)
    requires id in students
    ensures var first := UpdateProfile(students, id, Profile(Unset, Value(email), Unset, Unset)).value;
            var second := UpdateProfile(first, id, Profile(Value(name), Unset, Unset, Unset)).value;
            second[id].profile.email == Unset && second[id].profile.name == Value(name)
  {
  }
}
