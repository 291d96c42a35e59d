/** The static configuration the engine looks up: per-round settings and the role topic table. */
module Config {
  /** One row of `ROUND_SETTINGS`. The time limit is carried along but never enforced. */
  datatype RoundSetting = RoundSetting(totalQuestions: nat, passingScore: int, timeLimit: nat)

  /** `ROUND_SETTINGS`, keyed by round number. */
  const RoundSettings: map<int, RoundSetting> :=
    map[1 := RoundSetting(20, 70, 600),
        2 := RoundSetting(15, 70, 900),
        3 := RoundSetting(3, 0, 1800)]

  /** `ROUND_SETTINGS[r]["total_questions"]` */
  function TotalQuestions(round: int): (n: nat)
    requires round in RoundSettings
    ensures n > 0
    ensures round == 1 ==> n == 20
    ensures round == 2 ==> n == 15
    ensures round == 3 ==> n == 3
  {
    RoundSettings[round].totalQuestions
  }

  /** `ROUND_SETTINGS[r]["passing_score"]` */
  function PassingScore(round: int): (p: int)
    requires round in RoundSettings
    ensures 0 <= p <= 100
    ensures round == 3 <==> p == 0
    ensures round != 3 ==> p == 70
  {
    RoundSettings[round].passingScore
  }

  /** Settings exist for exactly the rounds 1, 2 and 3. */
  lemma RoundSettingsDomain()
    ensures RoundSettings.Keys == {1, 2, 3}
  {
  }

  /** `ROLE_TOPICS`: role, then level value, then topic list. */
  const RoleTopics: map<string, map<string, seq<string>>> :=
    map[
      "Software Engineer" := map[
        "entry" := ["Python Basics", "OOP Concepts", "Data Structures",
                    "Algorithms", "SQL Fundamentals", "Git & Version Control",
                    "Debugging", "Testing Basics", "Web Basics"],
        "mid" := ["System Design", "API Design", "Testing Strategies",
                  "Concurrency", "Database Design", "Cloud Basics",
                  "Microservices", "Performance Optimization"],
        "senior" := ["Software Architecture", "Scalability", "Distributed Systems",
                     "Cloud Architecture", "Technical Leadership", "Mentoring",
                     "Code Review Best Practices", "DevOps", "Security"]],
      "Data Scientist" := map[
        "entry" := ["Python for Data Science", "Statistics Fundamentals",
                    "Pandas & NumPy", "Data Visualization", "ML Basics",
                    "SQL for Analysis", "Data Cleaning"],
        "mid" := ["Feature Engineering", "Model Evaluation", "Deep Learning Basics",
                  "SQL Advanced", "A/B Testing", "Time Series Analysis",
                  "Model Deployment"],
        "senior" := ["MLOps", "Experiment Design", "Big Data Technologies",
                     "Production ML Systems", "Team Leadership", "Stakeholder Management",
                     "Advanced Statistics"]]]

  /** Each configured role has a non-empty topic list for each of the three levels. */
  lemma RoleTopicsComplete(role: string, level: string)
    requires role in RoleTopics
    requires level == "entry" || level == "mid" || level == "senior"
    ensures level in RoleTopics[role] && |RoleTopics[role][level]| > 0
  {
  }

  /** `ROLE_TOPICS.get(role, {}).get(level, ["General"])`: never empty, and
      `["General"]` for an unknown role or level. */
  function TopicsFor(role: string, level: string): (topics: seq<string>)
    ensures |topics| > 0
    ensures role in RoleTopics && level in RoleTopics[role] ==> topics == RoleTopics[role][level]
    ensures !(role in RoleTopics && level in RoleTopics[role]) ==> topics == ["General"]
  {
    if role in RoleTopics && level in RoleTopics[role] then RoleTopics[role][level] else ["General"]
  }
}
