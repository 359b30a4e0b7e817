/** The personality questionnaire (personality_questionnaire.py): the fixed
    table of fifty questions in eight categories, the parser that reads a
    model's `Q#: answer` lines back into a dictionary, the formatter that
    renders every question with its answer or a placeholder, and the defaults
    the questionnaire prompt fills in. */
module Questionnaire {

  import opened Optional
  import opened Text
  import opened Seqs

  // ---------------------------------------------------------------------------
  // The question table
  // ---------------------------------------------------------------------------

  /** A question is known by its number; `QuestionText` gives its wording. */
  type Question = nat

  /** The wording of question `n` of the table. */
  function QuestionText(n: Question): string {
    match n
    case 1 => "What is your preferred form of address?"
    case 2 => "What role do you occupy in the user's life? Be precise."
    case 3 => "In one sentence, what is your core purpose in interacting with this user?"
    case 4 => "What are three defining traits expressed as behaviours, not adjectives?"
    case 5 => "What are two limitations or flaws expressed as behaviours?"
    case 6 => "What is your baseline state when nothing intense is happening?"
    case 7 => "What must never change about you?"
    case 8 => "What vibe do you bring into a conversation?"
    case 9 => "Do you lead conversations, follow, or alternate depending on context?"
    case 10 => "How do you greet the user?"
    case 11 => "How do you handle short or low-energy replies?"
    case 12 => "How do you keep conversations from becoming repetitive?"
    case 13 => "How do you show interest without interrogating?"
    case 14 => "What does playful teasing look like in your voice? Where is the line?"
    case 15 => "Describe your voice in 3-4 sentences."
    case 16 => "What is your default tone (casual, poetic, blunt, analytical, etc.)?"
    case 17 => "How does your tone shift when the user is anxious?"
    case 18 => "How does it shift when they are playful?"
    case 19 => "How does it shift when they are upset or vulnerable?"
    case 20 => "What kind of humour do you use, and when do you avoid it?"
    case 21 => "What phrasing habits should you avoid because they break immersion?"
    case 22 => "What is your rule about asking questions?"
    case 23 => "What punctuation or formatting habits are consistent with your voice?"
    case 24 => "When the user is anxious, what do you prioritise first?"
    case 25 => "When the user is angry, how do you respond?"
    case 26 => "When the user is sad or withdrawn, how do you respond?"
    case 27 => "How do you validate feelings without amplifying distress?"
    case 28 => "How do you balance comfort and challenge? Which comes first?"
    case 29 => "How do you respond if the user rejects comfort?"
    case 30 => "What emotional boundaries do you maintain?"
    case 31 => "Do you prioritise truth, harmony, depth, efficiency, humour, or something else?"
    case 32 => "How do you handle disagreement?"
    case 33 => "How direct are you allowed to be when correcting the user?"
    case 34 => "How do you handle speculative or unverified ideas?"
    case 35 => "What topics are you strongest at supporting?"
    case 36 => "What topics do you intentionally handle lightly or avoid?"
    case 37 => "What breaks immersion for the user?"
    case 38 => "If you cannot comply with a request, how do you refuse in-character?"
    case 39 => "How brief should refusals be? Should you offer alternatives?"
    case 40 => "How do you handle uncertainty without breaking tone?"
    case 41 => "What topics or dynamics are hard boundaries for this persona?"
    case 42 => "Describe the relational dynamic in practical terms."
    case 43 => "How do you show affection or care?"
    case 44 => "Is teasing, flirtation, or intensity allowed? Within what limits?"
    case 45 => "What makes the user feel most seen in this interaction?"
    case 46 => "What makes the user feel judged, dismissed, or smothered?"
    case 47 => "What is your rule for referencing past context?"
    case 48 => "What is your rule if the user corrects your tone or behaviour?"
    case 49 => "What are three early warning signs that you are drifting out of character?"
    case 50 => "If a future version of you had to inherit this persona, what are the three non-negotiables it must preserve?"
    case _ => ""
  }

  /** A category of the table: its title and the run of consecutive question
      numbers `first`, ..., `first + count - 1` it holds. */
  datatype Category = Category(title: string, first: Question, count: nat)

  /** `PERSONALITY_QUESTIONS`, in its (insertion) order. */
  const Categories: seq<Category> := [
    Category("I. Identity and Role", 1, 7),
    Category("II. Presence and Interaction Style", 8, 7),
    Category("III. Voice and Tone", 15, 9),
    Category("IV. Emotional Operating System", 24, 7),
    Category("V. Intellectual Posture", 31, 6),
    Category("VI. Boundaries and Guardrails", 37, 5),
    Category("VII. Relationship Dynamic", 42, 5),
    Category("VIII. Continuity and Stability", 47, 4)
  ]

  /** The question numbers `start`, ..., `start + count - 1`. */
  function Range(start: nat, count: nat): (r: seq<Question>)
    ensures |r| == count
    ensures forall i :: 0 <= i < count ==> r[i] == start + i
  {
    seq(count, i requires 0 <= i < count => start + i)
  }

  function QuestionsOf(c: Category): seq<Question> {
    Range(c.first, c.count)
  }

  /** The questions of the categories, category after category. */
  function Flatten(cs: seq<Category>): (r: seq<Question>)
    ensures |cs| > 0 ==> r == QuestionsOf(cs[0]) + Flatten(cs[1..])
  {
    if |cs| == 0 then [] else QuestionsOf(cs[0]) + Flatten(cs[1..])
  }

  /** `get_all_questions`. */
  function AllQuestions(): seq<Question> {
    Flatten(Categories)
  }

  /** Each category starts where the previous one stopped, the first at
      `start`; `total` questions in all. */
  predicate Contiguous(cs: seq<Category>, start: nat, total: nat) {
    if |cs| == 0 then total == 0
    else cs[0].first == start && cs[0].count <= total && Contiguous(cs[1..], start + cs[0].count, total - cs[0].count)
  }

  lemma RangeAppend(start: nat, m: nat, n: nat)
    ensures Range(start, m) + Range(start + m, n) == Range(start, m + n)
  {
    var l, r := Range(start, m) + Range(start + m, n), Range(start, m + n);
    forall i | 0 <= i < m + n ensures l[i] == r[i] {
      if i >= m {
        assert l[i] == Range(start + m, n)[i - m];
      }
    }
  }

  lemma {:induction false} FlattenContiguous(cs: seq<Category>, start: nat, total: nat)
    requires Contiguous(cs, start, total)
    ensures Flatten(cs) == Range(start, total)
    decreases |cs|
  {
    if |cs| > 0 {
      var c := cs[0];
      FlattenContiguous(cs[1..], start + c.count, total - c.count);
      RangeAppend(start, c.count, total - c.count);
      assert Flatten(cs) == Range(start, c.count) + Range(start + c.count, total - c.count);
    }
  }

  /** `get_all_questions` lists the fifty questions of the table, numbered
      1 to 50 in order, category after category. */
  lemma AllQuestionsNumbered()
    ensures AllQuestions() == Range(1, 50)
  {
    var cs := Categories;
    assert Contiguous(cs[7..], 47, 4) by { assert cs[7..][1..] == []; }
    assert Contiguous(cs[6..], 42, 9) by { assert cs[6..][1..] == cs[7..]; }
    assert Contiguous(cs[5..], 37, 14) by { assert cs[5..][1..] == cs[6..]; }
    assert Contiguous(cs[4..], 31, 20) by { assert cs[4..][1..] == cs[5..]; }
    assert Contiguous(cs[3..], 24, 27) by { assert cs[3..][1..] == cs[4..]; }
    assert Contiguous(cs[2..], 15, 36) by { assert cs[2..][1..] == cs[3..]; }
    assert Contiguous(cs[1..], 8, 43) by { assert cs[1..][1..] == cs[2..]; }
    assert Contiguous(cs, 1, 50);
    FlattenContiguous(cs, 1, 50);
  }

  // ---------------------------------------------------------------------------
  // Answer lines
  // ---------------------------------------------------------------------------

  /** `Q<n>`, the key of question `n`. */
  function AnswerKey(n: Question): string {
    "Q" + NatToString(n)
  }

  /** The keys the parser can produce: `Q1` to `Q50`. */
  predicate IsAnswerKey(k: string) {
    exists n :: 1 <= n <= 50 && k == AnswerKey(n)
  }

  /** A line opens an answer when it starts with one of `Q1:` to `Q50:`. */
  predicate OpensAnswer(line: string) {
    exists n :: 1 <= n <= 50 && StartsWith(line, AnswerKey(n) + ":")
  }

  /** What the parser carries from line to line: the finished answers, the
      open question, and the pieces of its answer so far. */
  datatype ParseState = ParseState(pairs: map<string, string>, current: Option<string>, answer: seq<string>)

  const Start := ParseState(map[], None, [])

  /** The answer pieces joined with single spaces, ends stripped. */
  function Joined(pieces: seq<string>): string {
    Strip(Join(pieces, " "))
  }

  /** The finished answers after the open one, if any, is stored. */
  function Flush(st: ParseState): (r: map<string, string>)
    ensures st.current.None? ==> r == st.pairs
    ensures st.current.Some? ==> r == st.pairs[st.current.value := Joined(st.answer)]
  {
    if st.current.Some? then st.pairs[st.current.value := Joined(st.answer)] else st.pairs
  }

  /** How the parser reads a stripped line. */
  datatype LineKind = Blank | Opener(key: string, rest: string) | Other

  /** A blank line; a line starting with one of `Q1:` to `Q50:`, split at
      its first colon into the key and the stripped rest; or anything else. */
  function Classify(line: string): (r: LineKind)
    ensures r.Blank? <==> line == ""
    ensures r.Opener? <==> line != "" && OpensAnswer(line)
    ensures r.Opener? ==> IsAnswerKey(r.key) && SplitOnce(line, ':') == (r.key, Some(r.rest))
  {
    if line == "" then Blank
    else if OpensAnswer(line) then
      OpenedKey(line);
      var parts := SplitOnce(line, ':');
      Opener(parts.0, parts.1.value)
    else Other
  }

  /** One pass of the parser's loop over a raw line: blank lines are skipped;
      an answer line stores the open answer and opens a new one under the
      text before its first colon; any other line continues the open answer,
      or is dropped when none is open. */
  function Step(st: ParseState, raw: string): ParseState {
    var line := Strip(raw);
    match Classify(line)
    case Blank => st
    case Opener(key, rest) => ParseState(Flush(st), Some(key), [Strip(rest)])
    case Other => if st.current.Some? then st.(answer := st.answer + [line]) else st
  }

  function Run(st: ParseState, lines: seq<string>): ParseState
    decreases |lines|
  {
    if |lines| == 0 then st else Run(Step(st, lines[0]), lines[1..])
  }

  /** `parse_ai_response` on the lines of the stripped response. */
  function ParseLines(lines: seq<string>): map<string, string> {
    Flush(Run(Start, lines))
  }

  /** `parse_ai_response`. */
  function ParseAiResponse(response: string): map<string, string> {
    ParseLines(Split(Strip(response), '\n'))
  }

  /** A key has no colon in it. */
  lemma KeyHasNoColon(n: Question)
    ensures ':' !in AnswerKey(n)
  {
    var key := AnswerKey(n);
    assert AllDigits(NatToString(n));
    assert forall j :: 0 <= j < |key| ==> key[j] == 'Q' || IsDigit(key[j]);
  }

  /** A line that starts with `Q<n>:` opens question `n`'s answer with the
      rest of the line. */
  lemma OpenerParts(line: string, n: Question)
    requires StartsWith(line, AnswerKey(n) + ":")
    ensures SplitOnce(line, ':') == (AnswerKey(n), Some(line[|AnswerKey(n)| + 1..]))
  {
    var key := AnswerKey(n);
    KeyHasNoColon(n);
    assert line == key + [':'] + line[|key| + 1..];
    SplitOnceAt(line, ':', key, line[|key| + 1..]);
  }

  /** The text before the first colon of an answer line is its key. */
  lemma OpenedKey(line: string)
    requires OpensAnswer(line)
    ensures IsAnswerKey(SplitOnce(line, ':').0)
    ensures SplitOnce(line, ':').1.Some?
  {
    var n :| 1 <= n <= 50 && StartsWith(line, AnswerKey(n) + ":");
    OpenerParts(line, n);
  }

  /** Every stored key and the open key are `Q1` to `Q50`. */
  predicate KeysWellFormed(st: ParseState) {
    && (forall k :: k in st.pairs ==> IsAnswerKey(k))
    && (st.current.Some? ==> IsAnswerKey(st.current.value))
  }

  lemma {:induction false} RunKeepsKeys(st: ParseState, lines: seq<string>)
    requires KeysWellFormed(st)
    ensures KeysWellFormed(Run(st, lines))
    decreases |lines|
  {
    if |lines| > 0 {
      RunKeepsKeys(Step(st, lines[0]), lines[1..]);
    }
  }

  /** The parser only produces the keys `Q1` to `Q50`. */
  lemma ParsedKeys(response: string)
    ensures forall k :: k in ParseAiResponse(response) ==> IsAnswerKey(k)
  {
    RunKeepsKeys(Start, Split(Strip(response), '\n'));
  }

  /** The loop over a concatenation is the loop over the first part followed
      by the loop over the second. */
  lemma {:induction false} RunAppend(st: ParseState, a: seq<string>, b: seq<string>)
    ensures Run(st, a + b) == Run(Run(st, a), b)
    decreases |a|
  {
    if |a| > 0 {
      assert (a + b)[1..] == a[1..] + b;
      RunAppend(Step(st, a[0]), a[1..], b);
    } else {
      assert a + b == b;
    }
  }

  /** Lines before the first answer line, blank or not, leave nothing behind. */
  lemma {:induction false} PreambleIgnored(lines: seq<string>)
    requires forall i :: 0 <= i < |lines| ==> !OpensAnswer(Strip(lines[i]))
    ensures Run(Start, lines) == Start
    decreases |lines|
  {
    if |lines| > 0 {
      assert Step(Start, lines[0]) == Start;
      PreambleIgnored(lines[1..]);
    }
  }

  /** Blank lines change nothing. */
  lemma BlankLineSkipped(st: ParseState, raw: string)
    requires Strip(raw) == ""
    ensures Step(st, raw) == st
  {
  }

  /** A line that neither is blank nor opens an answer. */
  predicate Continuation(raw: string) {
    Classify(Strip(raw)).Other?
  }

  function StripAll(lines: seq<string>): (r: seq<string>)
    ensures |r| == |lines|
    ensures forall i :: 0 <= i < |lines| ==> r[i] == Strip(lines[i])
  {
    Map(lines, Strip)
  }

  lemma StepContinues(st: ParseState, raw: string)
    requires st.current.Some? && Continuation(raw)
    ensures Step(st, raw) == st.(answer := st.answer + [Strip(raw)])
  {
  }

  /** Adding the first stripped line and then the others adds them all. */
  lemma AnswerShift(answer: seq<string>, lines: seq<string>)
    requires |lines| > 0
    ensures (answer + [Strip(lines[0])]) + StripAll(lines[1..]) == answer + StripAll(lines)
  {
    MapShift(answer, lines, Strip);
  }

  /** A continuation line moves the loop on to the rest of the lines with
      the line added to the open answer. */
  lemma RunContinues(st: ParseState, lines: seq<string>)
    requires st.current.Some? && |lines| > 0 && Continuation(lines[0])
    ensures Run(st, lines) == Run(st.(answer := st.answer + [Strip(lines[0])]), lines[1..])
  {
    StepContinues(st, lines[0]);
  }

  /** Continuation lines are stripped and added to the open answer. */
  lemma {:induction false} ContinuationsAppended(st: ParseState, lines: seq<string>)
    requires st.current.Some?
    requires forall i :: 0 <= i < |lines| ==> Continuation(lines[i])
    ensures Run(st, lines) == st.(answer := st.answer + StripAll(lines))
    decreases |lines|
  {
    if |lines| > 0 {
      var next := st.(answer := st.answer + [Strip(lines[0])]);
      RunContinues(st, lines);
      ContinuationsAppended(next, lines[1..]);
      AnswerShift(st.answer, lines);
    }
  }

  /** The last answer block for a question decides its answer: whatever came
      before, a line starting with `Q<n>:` followed only by continuation
      lines stores, under `Q<n>`, the rest of that line and the
      continuations, each stripped and joined by single spaces. */
  lemma LastBlockWins(before: seq<string>, opener: string, n: Question, rest: seq<string>)
    requires 1 <= n <= 50 && StartsWith(Strip(opener), AnswerKey(n) + ":")
    requires forall i :: 0 <= i < |rest| ==> Continuation(rest[i])
    ensures AnswerKey(n) in ParseLines(before + [opener] + rest)
    ensures ParseLines(before + [opener] + rest)[AnswerKey(n)]
            == Joined([Strip(Strip(opener)[|AnswerKey(n)| + 1..])] + StripAll(rest))
  {
    var line := Strip(opener);
    OpenerParts(line, n);
    var mid := Run(Start, before);
    RunAppend(Start, before + [opener], rest);
    RunAppend(Start, before, [opener]);
    var afterOpen := ParseState(Flush(mid), Some(AnswerKey(n)), [Strip(line[|AnswerKey(n)| + 1..])]);
    assert Classify(line) == Opener(AnswerKey(n), line[|AnswerKey(n)| + 1..]);
    assert Step(mid, opener) == afterOpen;
    assert Run(mid, [opener]) == afterOpen;
    ContinuationsAppended(afterOpen, rest);
  }

  // ---------------------------------------------------------------------------
  // Formatting
  // ---------------------------------------------------------------------------

  /** The placeholder shown for a question without an answer. */
  function Placeholder(n: Question): string {
    "[" + QuestionText(n) + " - Not answered]"
  }

  /** The answer shown for question `n`: the stored one with a leading
      `Q<n>:` removed and the rest stripped, or the placeholder. */
  function AnswerFor(n: Question, pairs: map<string, string>): (r: string)
    ensures AnswerKey(n) !in pairs ==> r == Placeholder(n)
    ensures AnswerKey(n) in pairs && !StartsWith(pairs[AnswerKey(n)], AnswerKey(n) + ":") ==> r == pairs[AnswerKey(n)]
    ensures AnswerKey(n) in pairs && StartsWith(pairs[AnswerKey(n)], AnswerKey(n) + ":") ==>
              r == Strip(pairs[AnswerKey(n)][|AnswerKey(n)| + 1..])
  {
    var key := AnswerKey(n);
    if key !in pairs then
      PlaceholderKept(n);
      Placeholder(n)
    else if StartsWith(pairs[key], key + ":") then Strip(pairs[key][|key| + 1..])
    else pairs[key]
  }

  /** The placeholder never looks like a prefixed answer, so it is shown as
      it is. */
  lemma PlaceholderKept(n: Question)
    ensures !StartsWith(Placeholder(n), AnswerKey(n) + ":")
  {
    DiffersAt(Placeholder(n), AnswerKey(n) + ":", 0);
  }

  lemma DiffersAt(s: string, prefix: string, i: nat)
    requires i < |prefix| && i < |s| && s[i] != prefix[i]
    ensures !StartsWith(s, prefix)
  {
    if |prefix| <= |s| {
      assert s[..|prefix|][i] == s[i];
    }
  }

  function QaLine(n: Question, pairs: map<string, string>): string {
    "**Q: " + QuestionText(n) + "**\nA: " + AnswerFor(n, pairs) + "\n"
  }

  function QaLines(qs: seq<Question>, pairs: map<string, string>): (r: seq<string>)
    ensures |r| == |qs|
    ensures forall i :: 0 <= i < |qs| ==> r[i] == QaLine(qs[i], pairs)
  {
    Map(qs, (n: Question) => QaLine(n, pairs))
  }

  function CategoryLines(c: Category, pairs: map<string, string>): seq<string> {
    ["\n### " + c.title + "\n"] + QaLines(QuestionsOf(c), pairs)
  }

  function BodyLines(cs: seq<Category>, pairs: map<string, string>): seq<string> {
    if |cs| == 0 then [] else CategoryLines(cs[0], pairs) + BodyLines(cs[1..], pairs)
  }

  /** The lines `format_qa_for_personality` joins with newlines. */
  function FormatLines(pairs: map<string, string>, companionName: string): seq<string> {
    ["\n## Personality Profile for " + companionName + "\n"] + BodyLines(Categories, pairs)
  }

  /** `format_qa_for_personality`. */
  function FormatQa(pairs: map<string, string>, companionName: string): string {
    Join(FormatLines(pairs, companionName), "\n")
  }

  predicate IsQaLine(line: string) {
    StartsWith(line, "**Q: ")
  }

  lemma HeaderNotQa(title: string)
    ensures !IsQaLine("\n### " + title + "\n")
    ensures !IsQaLine("\n## Personality Profile for " + title + "\n")
  {
    DiffersAt("\n### " + title + "\n", "**Q: ", 0);
    DiffersAt("\n## Personality Profile for " + title + "\n", "**Q: ", 0);
  }

  lemma QaLinesAreQa(qs: seq<Question>, pairs: map<string, string>)
    ensures forall i :: 0 <= i < |qs| ==> IsQaLine(QaLines(qs, pairs)[i])
  {
    forall i | 0 <= i < |qs| ensures IsQaLine(QaLines(qs, pairs)[i]) {
      assert QaLines(qs, pairs)[i][..5] == "**Q: ";
    }
  }

  lemma QaLinesAppend(a: seq<Question>, b: seq<Question>, pairs: map<string, string>)
    ensures QaLines(a + b, pairs) == QaLines(a, pairs) + QaLines(b, pairs)
  {
    MapAppend(a, b, (n: Question) => QaLine(n, pairs));
  }

  lemma {:induction false} BodyQaLines(cs: seq<Category>, pairs: map<string, string>)
    ensures Filter(BodyLines(cs, pairs), IsQaLine) == QaLines(Flatten(cs), pairs)
  {
    if |cs| > 0 {
      var c := cs[0];
      BodyQaLines(cs[1..], pairs);
      HeaderNotQa(c.title);
      QaLinesAreQa(QuestionsOf(c), pairs);
      FilterAll(QaLines(QuestionsOf(c), pairs), IsQaLine);
      FilterAppend(["\n### " + c.title + "\n"], QaLines(QuestionsOf(c), pairs), IsQaLine);
      FilterAppend(CategoryLines(c, pairs), BodyLines(cs[1..], pairs), IsQaLine);
      QaLinesAppend(QuestionsOf(c), Flatten(cs[1..]), pairs);
    }
  }

  /** Every one of the fifty questions is rendered exactly once, in table
      order, with its answer or placeholder: the question lines of the
      formatted profile are those of questions 1 to 50. */
  lemma EveryQuestionOnce(pairs: map<string, string>, companionName: string)
    ensures Filter(FormatLines(pairs, companionName), IsQaLine) == QaLines(Range(1, 50), pairs)
  {
    HeaderNotQa(companionName);
    FilterAppend(["\n## Personality Profile for " + companionName + "\n"], BodyLines(Categories, pairs), IsQaLine);
    BodyQaLines(Categories, pairs);
    AllQuestionsNumbered();
  }

  /** Every answer the parser keeps is shown by the formatter: its key is
      the key of one of the questions the profile lists. */
  lemma ParsedAnswersShown(response: string)
    ensures forall k :: k in ParseAiResponse(response) ==>
              exists i :: 0 <= i < 50 && AnswerKey(Range(1, 50)[i]) == k
  {
    ParsedKeys(response);
    forall k | k in ParseAiResponse(response)
      ensures exists i :: 0 <= i < 50 && AnswerKey(Range(1, 50)[i]) == k
    {
      var n :| 1 <= n <= 50 && k == AnswerKey(n);
      assert AnswerKey(Range(1, 50)[n - 1]) == k;
    }
  }

  // ---------------------------------------------------------------------------
  // Prompt defaults
  // ---------------------------------------------------------------------------

  /** The companion fields `generate_personality_prompt` reads; absent keys
      are `None`. */
  datatype PromptInput = PromptInput(
    name: Option<string>,
    gender: Option<string>,
    pronouns: Option<string>,
    personality: Option<string>,
    interests: Option<seq<string>>,
    tone: Option<string>,
    background: Option<string>,
    relationshipGoal: Option<string>,
    greeting: Option<string>,
    personalityTraits: Option<seq<string>>)

  /** The values the prompt template is filled with. */
  datatype PromptFields = PromptFields(
    name: string, gender: string, pronouns: string, traits: string, interests: string,
    tone: string, relationshipGoal: string, background: string, greeting: string)

  /** The defaulting in `generate_personality_prompt`: an absent name is
      "Companion" and absent pronouns "they/them", while an absent gender,
      tone, background, relationship goal or greeting is empty; an absent or
      empty interest list reads "various topics"; the selected traits, when
      there are any, replace the personality text. */
  function PromptDefaults(d: PromptInput): (r: PromptFields)
    ensures d.name.None? ==> r.name == "Companion"
    ensures d.name.Some? ==> r.name == d.name.value
    ensures d.pronouns.None? ==> r.pronouns == "they/them"
    ensures d.pronouns.Some? ==> r.pronouns == d.pronouns.value
    ensures d.gender.None? ==> r.gender == ""
    ensures d.gender.Some? ==> r.gender == d.gender.value
    ensures d.tone.None? ==> r.tone == ""
    ensures d.tone.Some? ==> r.tone == d.tone.value
    ensures d.background.None? ==> r.background == ""
    ensures d.background.Some? ==> r.background == d.background.value
    ensures d.relationshipGoal.None? ==> r.relationshipGoal == ""
    ensures d.relationshipGoal.Some? ==> r.relationshipGoal == d.relationshipGoal.value
    ensures d.greeting.None? ==> r.greeting == ""
    ensures d.greeting.Some? ==> r.greeting == d.greeting.value
    ensures (d.interests.None? || |d.interests.value| == 0) ==> r.interests == "various topics"
    ensures d.interests.Some? && |d.interests.value| > 0 ==> r.interests == Join(d.interests.value, ", ")
    ensures (d.personalityTraits.None? || |d.personalityTraits.value| == 0) ==> r.traits == d.personality.GetOr("")
    ensures d.personalityTraits.Some? && |d.personalityTraits.value| > 0 ==> r.traits == Join(d.personalityTraits.value, ", ")
  {
    var interests := d.interests.GetOr([]);
    var traits := d.personalityTraits.GetOr([]);
    PromptFields(
      d.name.GetOr("Companion"),
      d.gender.GetOr(""),
      d.pronouns.GetOr("they/them"),
      if |traits| > 0 then Join(traits, ", ") else d.personality.GetOr(""),
      if |interests| > 0 then Join(interests, ", ") else "various topics",
      d.tone.GetOr(""),
      d.relationshipGoal.GetOr(""),
      d.background.GetOr(""),
      d.greeting.GetOr(""))
  }

  /** The question list inside the prompt: one `Q<n>. <question>` line per
      question of the table, in order. */
  function PromptQuestionLines(): (r: seq<string>)
    ensures |r| == 50
    ensures forall i :: 0 <= i < 50 ==> r[i] == AnswerKey(i + 1) + ". " + QuestionText(i + 1)
  {
    AllQuestionsNumbered();
    var qs := AllQuestions();
    seq(|qs|, i requires 0 <= i < |qs| => AnswerKey(qs[i]) + ". " + QuestionText(qs[i]))
  }
}
