/**
  The single aggregation pass over the retained records. The source keeps
  eight counter objects; seven of them are fed from one column each, and
  `copingStrategies` is declared but never written.
 */
module Analysis {
  import opened Rows
  import opened Tables
  import opened Tally

  datatype StudentInsights = StudentInsights(
    commonChallenges: Table,
    copingStrategies: Table,
    stressFactors: Table,
    isolationPatterns: Table,
    habitChanges: Table,
    moodPatterns: Table,
    workInterest: Table,
    socialIssues: Table)

  const NoInsights: StudentInsights := StudentInsights([], [], [], [], [], [], [], [])

  /** The seven tables the pass writes to. */
  datatype Tracked =
    | StressFactors
    | CommonChallenges
    | IsolationPatterns
    | HabitChanges
    | MoodPatterns
    | WorkInterest
    | SocialIssues

  /** The dataset column each tracked table counts. */
  function Column(f: Tracked): string
  {
    match f
    case StressFactors => "Growing_Stress"
    case CommonChallenges => "Coping_Struggles"
    case IsolationPatterns => "Days_Indoors"
    case HabitChanges => "Changes_Habits"
    case MoodPatterns => "Mood_Swings"
    case WorkInterest => "Work_Interest"
    case SocialIssues => "Social_Weakness"
  }

  function TableOf(ins: StudentInsights, f: Tracked): Table
  {
    match f
    case StressFactors => ins.stressFactors
    case CommonChallenges => ins.commonChallenges
    case IsolationPatterns => ins.isolationPatterns
    case HabitChanges => ins.habitChanges
    case MoodPatterns => ins.moodPatterns
    case WorkInterest => ins.workInterest
    case SocialIssues => ins.socialIssues
  }

  /** The body of the `forEach` callback: the seven guarded increments for one record. */
  function Step(ins: StudentInsights, record: Row): StudentInsights
  {
    ins.(
      stressFactors := Record(ins.stressFactors, record, "Growing_Stress"),
      commonChallenges := Record(ins.commonChallenges, record, "Coping_Struggles"),
      isolationPatterns := Record(ins.isolationPatterns, record, "Days_Indoors"),
      habitChanges := Record(ins.habitChanges, record, "Changes_Habits"),
      moodPatterns := Record(ins.moodPatterns, record, "Mood_Swings"),
      workInterest := Record(ins.workInterest, record, "Work_Interest"),
      socialIssues := Record(ins.socialIssues, record, "Social_Weakness"))
  }

  /** The insights after the pass over `records`, starting from empty tables. */
  function Analyze(records: seq<Row>): StudentInsights
    decreases |records|
  {
    if |records| == 0 then NoInsights
    else Step(Analyze(records[..|records| - 1]), records[|records| - 1])
  }

  /**
    One record raises, in each tracked table, only the bucket of that
    table's own column value, by one, and only when the value is truthy;
    `copingStrategies` is untouched.
   */
  lemma StepCounts(ins: StudentInsights, record: Row, f: Tracked, k: string)
    ensures Step(ins, record).copingStrategies == ins.copingStrategies
    ensures CountOf(TableOf(Step(ins, record), f), k) ==
      CountOf(TableOf(ins, f), k) + if Truthy(record, Column(f)) && record[Column(f)] == k then 1 else 0
    ensures !Truthy(record, Column(f)) ==> TableOf(Step(ins, record), f) == TableOf(ins, f)
  {
    if Truthy(record, Column(f)) {
      BumpCounts(TableOf(ins, f), record[Column(f)], k);
    }
  }

  /**
    Field independence: after the pass, every tracked table is exactly the
    count of its own column over the records, as if that column were
    counted alone; `copingStrategies` stays empty.
   */
  lemma {:induction false} AnalyzeByColumn(records: seq<Row>, f: Tracked)
    ensures TableOf(Analyze(records), f) == TallyColumn(records, Column(f))
    ensures Analyze(records).copingStrategies == []
    decreases |records|
  {
    if |records| > 0 {
      AnalyzeByColumn(records[..|records| - 1], f);
    }
  }

  /**
    Exact counts: in every tracked table the count of a key is the number
    of records whose column holds exactly that text; the empty text is
    never counted.
   */
  lemma AnalyzeCounts(records: seq<Row>, f: Tracked, k: string)
    ensures CountOf(TableOf(Analyze(records), f), k) ==
      if k == "" then 0 else CountRows(records, Column(f), k)
  {
    AnalyzeByColumn(records, f);
    TallyCounts(records, Column(f), k);
  }

  /**
    Every tracked table is well formed: distinct keys, positive counts, keys
    in the order their values were first seen, no empty key, and counts that
    add up to the number of records with a truthy value in the column.
   */
  lemma AnalyzeWellFormed(records: seq<Row>, f: Tracked)
    ensures WellFormed(TableOf(Analyze(records), f))
    ensures Keys(TableOf(Analyze(records), f)) == Dedup(Values(records, Column(f)))
    ensures "" !in Keys(TableOf(Analyze(records), f))
    ensures Total(TableOf(Analyze(records), f)) == |Values(records, Column(f))| <= |records|
  {
    AnalyzeByColumn(records, f);
    TallyWellFormed(records, Column(f));
    TallyKeys(records, Column(f));
    TallyTotal(records, Column(f));
  }

  /** A tracked table is blind to every other column: records that agree on its column give the same table. */
  lemma {:induction false} AnalyzeFieldIndependence(a: seq<Row>, b: seq<Row>, f: Tracked)
    requires AgreeOn(a, b, Column(f))
    ensures TableOf(Analyze(a), f) == TableOf(Analyze(b), f)
  {
    AnalyzeByColumn(a, f);
    AnalyzeByColumn(b, f);
    TallyDependsOnColumnOnly(a, b, Column(f));
  }

  /** `analyzeStudentData`: the `forEach` over the records, updating the tables in place. */
  method AnalyzeStudentData(records: seq<Row>) returns (ins: StudentInsights)
    ensures ins == Analyze(records)
    ensures forall f :: TableOf(ins, f) == TallyColumn(records, Column(f))
    ensures ins.copingStrategies == []
  {
    ins := NoInsights;
    for i := 0 to |records|
      invariant ins == Analyze(records[..i])
    {
      assert records[..i + 1][..i] == records[..i];
      ins := Step(ins, records[i]);
    }
    assert records[..|records|] == records;
    forall f
      ensures TableOf(ins, f) == TallyColumn(records, Column(f))
    {
      AnalyzeByColumn(records, f);
    }
    AnalyzeByColumn(records, StressFactors);
  }
}
