/**
  `getEnhancedSystemPrompt`: the persona text followed by a fixed template
  into which four top-N lists are written. The persona constant is opaque
  here, so it is a parameter; the template text is reproduced exactly.
 */
module Prompt {
  import opened Strings
  import opened Tables
  import opened Ranking
  import opened Analysis

  datatype Option<T> = None | Some(value: T)

  /** A line break. */
  const NL: string := "\n"

  /** The fixed text around the four slots. */
  datatype Template = Template(
    header: string,
    stressorsLabel: string,
    isolationLabel: string,
    socialLabel: string,
    closing: string)

  /** The template text of `getEnhancedSystemPrompt`. */
  const SourceTemplate: Template := Template(
    NL + "  " + NL + "Based on actual student data, pay special attention to these common student challenges:" + NL,
    NL + NL + "Top stressors reported by students include: ",
    NL + "Common isolation patterns include: ",
    NL + "Frequently reported social challenges: ",
    NL + NL + "Focus your responses specifically on academic pressures, campus life, student relationships,"
    + NL + "and the unique challenges faced by students in educational environments." + NL)

  /** How many keys each rendered list shows. */
  const ChallengesShown: nat := 5
  const StressorsShown: nat := 3
  const IsolationShown: nat := 2
  const SocialShown: nat := 3

  /** The four lists that the template displays. */
  datatype Lists = Lists(challenges: string, stressors: string, isolation: string, social: string)

  /** The template with its four slots filled. */
  function Render(tm: Template, persona: string, l: Lists): string
  {
    persona + (tm.header + (l.challenges + (tm.stressorsLabel + (l.stressors
    + (tm.isolationLabel + (l.isolation + (tm.socialLabel + (l.social + tm.closing))))))))
  }

  /** The lists the prompt shows for a set of insights. */
  function ShownLists(ins: StudentInsights): Lists
  {
    Lists(
      TopList(ins.commonChallenges, ChallengesShown),
      TopList(ins.stressFactors, StressorsShown),
      TopList(ins.isolationPatterns, IsolationShown),
      TopList(ins.socialIssues, SocialShown))
  }

  function EnhancedSystemPrompt(persona: string, ins: StudentInsights): string
  {
    Render(SourceTemplate, persona, ShownLists(ins))
  }

  /** The text before the first line break, and the rest from that line break on. */
  function UpToNewline(s: string): (string, string)
  {
    var i := IndexOf(s, "\n", 0);
    if i == -1 then (s, "") else (s[..i], s[i..])
  }

  /** The text after the literal prefix `lit`, if `s` starts with it. */
  function After(s: string, lit: string): Option<string>
  {
    if |lit| <= |s| && s[..|lit|] == lit then Some(s[|lit|..]) else None
  }

  /** Reads one slot up to the line break, then the marker that follows it; gives the slot and the text after the marker. */
  function ReadSlot(s: string, marker: string): Option<(string, string)>
  {
    var (slot, rest) := UpToNewline(s);
    match After(rest, marker)
    case None => None
    case Some(more) => Some((slot, more))
  }

  /** Reads the last slot, which must be followed by exactly the closing text. */
  function ReadLast(s: string, closing: string): Option<string>
  {
    var (slot, rest) := UpToNewline(s);
    if rest == closing then Some(slot) else None
  }

  /** Reads the four lists back out of a prompt built on `persona` with template `tm`. */
  function ParsePrompt(tm: Template, persona: string, text: string): Option<Lists>
  {
    match After(text, persona + tm.header)
    case None => None
    case Some(r0) =>
      match ReadSlot(r0, tm.stressorsLabel)
      case None => None
      case Some(p1) =>
        match ReadSlot(p1.1, tm.isolationLabel)
        case None => None
        case Some(p2) =>
          match ReadSlot(p2.1, tm.socialLabel)
          case None => None
          case Some(p3) =>
            match ReadLast(p3.1, tm.closing)
            case None => None
            case Some(social) => Some(Lists(p1.0, p2.0, p3.0, social))
  }

  /** Every piece of text that follows a slot starts on a new line. */
  predicate SlotsEndLines(tm: Template)
  {
    && |tm.stressorsLabel| > 0 && tm.stressorsLabel[0] == '\n'
    && |tm.isolationLabel| > 0 && tm.isolationLabel[0] == '\n'
    && |tm.socialLabel| > 0 && tm.socialLabel[0] == '\n'
    && |tm.closing| > 0 && tm.closing[0] == '\n'
  }

  lemma SourceTemplateEndsLines()
    ensures SlotsEndLines(SourceTemplate)
  {
  }

  predicate SingleLine(s: string)
  {
    '\n' !in s
  }

  lemma AfterPrefix(lit: string, rest: string)
    ensures After(lit + rest, lit) == Some(rest)
  {
    assert (lit + rest)[..|lit|] == lit;
    assert (lit + rest)[|lit|..] == rest;
  }

  lemma UpToNewlineSplits(a: string, rest: string)
    requires SingleLine(a) && |rest| > 0 && rest[0] == '\n'
    ensures UpToNewline(a + rest) == (a, rest)
  {
    var s := a + rest;
    assert s == a + "\n" + rest[1..];
    FirstSeparator(a, "\n", rest[1..]);
    assert s[..|a|] == a;
    assert s[|a|..] == rest;
  }

  lemma ReadSlotRoundTrip(a: string, marker: string, rest: string)
    requires SingleLine(a) && |marker| > 0 && marker[0] == '\n'
    ensures ReadSlot(a + (marker + rest), marker) == Some((a, rest))
  {
    UpToNewlineSplits(a, marker + rest);
    AfterPrefix(marker, rest);
  }

  lemma ReadLastRoundTrip(a: string, closing: string)
    requires SingleLine(a) && |closing| > 0 && closing[0] == '\n'
    ensures ReadLast(a + closing, closing) == Some(a)
  {
    UpToNewlineSplits(a, closing);
  }

  /** The prompt reads back as the lists it was rendered from, provided each list is a single line. */
  lemma {:induction false} ParseRender(tm: Template, persona: string, l: Lists)
    requires SlotsEndLines(tm)
    requires SingleLine(l.challenges) && SingleLine(l.stressors)
    requires SingleLine(l.isolation) && SingleLine(l.social)
    ensures ParsePrompt(tm, persona, Render(tm, persona, l)) == Some(l)
  {
    var tail3 := l.isolation + (tm.socialLabel + (l.social + tm.closing));
    var tail2 := l.stressors + (tm.isolationLabel + tail3);
    var tail1 := l.challenges + (tm.stressorsLabel + tail2);
    assert Render(tm, persona, l) == (persona + tm.header) + tail1;
    AfterPrefix(persona + tm.header, tail1);
    ReadSlotRoundTrip(l.challenges, tm.stressorsLabel, tail2);
    ReadSlotRoundTrip(l.stressors, tm.isolationLabel, tail3);
    ReadSlotRoundTrip(l.isolation, tm.socialLabel, l.social + tm.closing);
    ReadLastRoundTrip(l.social, tm.closing);
  }

  /** A rendered list is a single line when no key of its table contains a line break. */
  lemma TopListSingleLine(t: Table, n: nat)
    requires DistinctKeys(t)
    requires forall i :: 0 <= i < |t| ==> SingleLine(t[i].key)
    ensures SingleLine(TopList(t, n))
  {
    var r := TopKeys(t, n);
    TopKeysBounds(t, n);
    forall i | 0 <= i < |r|
      ensures '\n' !in r[i]
    {
      assert r[i] in Keys(t);
    }
    JoinChars(r, ListSeparator, '\n');
  }

  predicate KeysSingleLine(t: Table)
  {
    forall i :: 0 <= i < |t| ==> SingleLine(t[i].key)
  }

  /**
    Prompt shape: the prompt is the persona followed by the template, and
    what stands in the four slots is the top-5 challenges, top-3 stressors,
    top-2 isolation patterns and top-3 social issues, each joined with ", ".
   */
  lemma {:induction false} PromptShowsTopLists(persona: string, ins: StudentInsights)
    requires DistinctKeys(ins.commonChallenges) && KeysSingleLine(ins.commonChallenges)
    requires DistinctKeys(ins.stressFactors) && KeysSingleLine(ins.stressFactors)
    requires DistinctKeys(ins.isolationPatterns) && KeysSingleLine(ins.isolationPatterns)
    requires DistinctKeys(ins.socialIssues) && KeysSingleLine(ins.socialIssues)
    ensures ParsePrompt(SourceTemplate, persona, EnhancedSystemPrompt(persona, ins)) == Some(Lists(
      Join(TopKeys(ins.commonChallenges, 5), ", "),
      Join(TopKeys(ins.stressFactors, 3), ", "),
      Join(TopKeys(ins.isolationPatterns, 2), ", "),
      Join(TopKeys(ins.socialIssues, 3), ", ")))
  {
    TopListSingleLine(ins.commonChallenges, ChallengesShown);
    TopListSingleLine(ins.stressFactors, StressorsShown);
    TopListSingleLine(ins.isolationPatterns, IsolationShown);
    TopListSingleLine(ins.socialIssues, SocialShown);
    SourceTemplateEndsLines();
    ParseRender(SourceTemplate, persona, ShownLists(ins));
  }

  /** The habit, mood, work-interest and coping tables never reach the prompt. */
  lemma PromptIgnoresUnshownTables(persona: string, ins: StudentInsights, other: StudentInsights)
    requires other.commonChallenges == ins.commonChallenges
    requires other.stressFactors == ins.stressFactors
    requires other.isolationPatterns == ins.isolationPatterns
    requires other.socialIssues == ins.socialIssues
    ensures EnhancedSystemPrompt(persona, other) == EnhancedSystemPrompt(persona, ins)
  {
  }

  /** With all tables empty, every slot is empty and the prompt is the persona plus the bare template. */
  lemma EmptyInsightsPrompt(persona: string)
    ensures EnhancedSystemPrompt(persona, NoInsights) == Render(SourceTemplate, persona, Lists("", "", "", ""))
  {
    assert TopKeys([], 5) == [] && TopKeys([], 3) == [] && TopKeys([], 2) == [];
  }

  /** The whole data path: filter the streamed rows, analyse the records, compose the prompt. */
  function PromptFromRows(persona: string, rows: seq<Rows.Row>): string
  {
    EnhancedSystemPrompt(persona, Analyze(Rows.Students(rows)))
  }

  /** A tracked table built from the student rows is its column's tally, with distinct single-line keys. */
  lemma {:induction false} StudentTableSingleLine(rows: seq<Rows.Row>, f: Tracked)
    requires Tally.CellsAvoid(rows, Column(f), '\n')
    ensures TableOf(Analyze(Rows.Students(rows)), f) == Tally.TallyColumn(Rows.Students(rows), Column(f))
    ensures DistinctKeys(TableOf(Analyze(Rows.Students(rows)), f))
    ensures KeysSingleLine(TableOf(Analyze(Rows.Students(rows)), f))
  {
    var recs := Rows.Students(rows);
    assert Tally.CellsAvoid(recs, Column(f), '\n') by {
      forall r | r in recs && Column(f) in r
        ensures '\n' !in r[Column(f)]
      {
        assert r in rows;
      }
    }
    AnalyzeByColumn(recs, f);
    Tally.TallyWellFormed(recs, Column(f));
    Tally.TallyKeysAvoid(recs, Column(f), '\n');
  }

  /**
    The whole path from streamed rows to prompt: the four slots of the
    prompt hold the top lists of the four rendered columns, each counted
    over the student rows only.
   */
  lemma {:induction false} PromptFromRowsShows(persona: string, rows: seq<Rows.Row>)
    requires Tally.CellsAvoid(rows, "Coping_Struggles", '\n')
    requires Tally.CellsAvoid(rows, "Growing_Stress", '\n')
    requires Tally.CellsAvoid(rows, "Days_Indoors", '\n')
    requires Tally.CellsAvoid(rows, "Social_Weakness", '\n')
    ensures ParsePrompt(SourceTemplate, persona, PromptFromRows(persona, rows)) == Some(Lists(
      Join(TopKeys(Tally.TallyColumn(Rows.Students(rows), "Coping_Struggles"), 5), ", "),
      Join(TopKeys(Tally.TallyColumn(Rows.Students(rows), "Growing_Stress"), 3), ", "),
      Join(TopKeys(Tally.TallyColumn(Rows.Students(rows), "Days_Indoors"), 2), ", "),
      Join(TopKeys(Tally.TallyColumn(Rows.Students(rows), "Social_Weakness"), 3), ", ")))
  {
    StudentTableSingleLine(rows, CommonChallenges);
    StudentTableSingleLine(rows, StressFactors);
    StudentTableSingleLine(rows, IsolationPatterns);
    StudentTableSingleLine(rows, SocialIssues);
    PromptShowsTopLists(persona, Analyze(Rows.Students(rows)));
  }
}
