/** The guided CLA interview (src/components/admin/ClaBot.tsx): four questions, one answer
    each, and a draft CLA sentence built from the answers so far. */
module ClaBot {
  import opened Text

  datatype Role = Assistant | User

  /** A chat message; the source's random React key is not modelled. */
  datatype Message = Message(role: Role, content: string)

  /** The answers: step 0 fills `target`, 1 `problem`, 2 `outcome`, 3 `approach`. */
  datatype BotState = BotState(target: string, problem: string, outcome: string, approach: string)

  const EmptyState := BotState("", "", "", "")

  const TargetPlaceholder := "（誰のために）"
  const ProblemPlaceholder := "（どんな課題を）"
  const OutcomePlaceholder := "（どうしたいか）"
  const ApproachPlaceholder := "（どんな考え方で）"

  const Greeting := "こんにちは。コアランゲージ（CLA）を一緒に言語化しましょう。"
  const FinalStep := 4
  const ClosingPrompt := "OK。下書きができました。必要なら言い回しを整えます。どこを直したいですか？"

  /** `field.trim() || placeholder`. */
  function Fill(field: string, placeholder: string): (r: string)
    ensures !IsBlank(field) ==> r == Trim(field)
    ensures IsBlank(field) ==> r == placeholder
  {
    var t := Trim(field);
    if t != "" then t else placeholder
  }

  /** The CLA sentence template, filled in the order target, problem, approach, outcome. */
  function Sentence(t: string, p: string, a: string, o: string): string {
    "私は" + t + "のために、" + p + "を、" + a + "という考え方で" + o + "を実現する。"
  }

  /** `buildCla`: every answer trimmed, a blank one replaced by its placeholder. */
  function BuildCla(state: BotState): string {
    var t := Fill(state.target, TargetPlaceholder);
    var p := Fill(state.problem, ProblemPlaceholder);
    var o := Fill(state.outcome, OutcomePlaceholder);
    var a := Fill(state.approach, ApproachPlaceholder);
    Sentence(t, p, a, o)
  }

  /** `nextQuestion`: the question for steps 0 to 3, the closing prompt for any other. */
  function NextQuestion(step: int): (r: string)
    ensures !(0 <= step < FinalStep) ==> r == ClosingPrompt
    ensures 0 <= step < FinalStep ==> r != ClosingPrompt
  {
    match step
    case 0 => "誰のための文章（読者/顧客）ですか？例：中小企業の経営者 / 就活生 / 新任マネージャー"
    case 1 => "その人が抱えている“具体的な困りごと”は何ですか？"
    case 2 => "読後にその人はどうなっていてほしいですか？（得たい状態/行動）"
    case 3 => "それを実現するための“あなたの考え方/型/アプローチ”は何ですか？"
    case _ => ClosingPrompt
  }

  /** Each of the four steps asks its own question. */
  lemma QuestionsDistinct(i: int, j: int)
    requires 0 <= i < FinalStep && 0 <= j < FinalStep && i != j
    ensures NextQuestion(i) != NextQuestion(j)
  {
    // The four questions have different lengths.
    assert |NextQuestion(0)| == 45 && |NextQuestion(1)| == 25;
    assert |NextQuestion(2)| == 31 && |NextQuestion(3)| == 33;
  }

  /** The interview: answers so far, current step, transcript. */
  datatype Session = Session(state: BotState, step: int, messages: seq<Message>)

  /** The opening transcript: greeting, then the first question. */
  const Opening := [Message(Assistant, Greeting), Message(Assistant, NextQuestion(0))]

  /** The initial state and the reset button's state. */
  function Reset(): (s: Session)
    ensures s.state == EmptyState && s.step == 0 && s.messages == Opening
  {
    Session(EmptyState, 0, Opening)
  }

  /** The answer slot step `k` fills. */
  function Field(state: BotState, k: int): string {
    if k == 0 then state.target
    else if k == 1 then state.problem
    else if k == 2 then state.outcome
    else if k == 3 then state.approach
    else ""
  }

  /** The `setState` update of `applyAnswer`: the answer goes into the slot of `step`. */
  function Record(state: BotState, step: int, answer: string): (r: BotState)
    ensures 0 <= step < FinalStep ==> Field(r, step) == answer
    ensures forall k :: k != step ==> Field(r, k) == Field(state, k)
    ensures !(0 <= step < FinalStep) ==> r == state
  {
    if step == 0 then state.(target := answer)
    else if step == 1 then state.(problem := answer)
    else if step == 2 then state.(outcome := answer)
    else if step == 3 then state.(approach := answer)
    else state
  }

  /** `applyAnswer`: a blank answer is ignored; otherwise the trimmed answer is recorded in
      the current step's slot (none after the last question), the transcript gains the
      answer and the next question, and the step advances, stopping at 4. */
  function ApplyAnswer(s: Session, answerRaw: string): (r: Session)
    ensures IsBlank(answerRaw) ==> r == s
    ensures !IsBlank(answerRaw) ==>
      && r.step == (if s.step + 1 < FinalStep then s.step + 1 else FinalStep)
      && r.messages == s.messages + [Message(User, Trim(answerRaw)), Message(Assistant, NextQuestion(r.step))]
      && (0 <= s.step < FinalStep ==> Field(r.state, s.step) == Trim(answerRaw))
      && (forall k :: k != s.step ==> Field(r.state, k) == Field(s.state, k))
  {
    var answer := Trim(answerRaw);
    if answer == "" then s
    else
      var next := if s.step + 1 < FinalStep then s.step + 1 else FinalStep;
      Session(Record(s.state, s.step, answer), next,
              s.messages + [Message(User, answer), Message(Assistant, NextQuestion(next))])
  }

  /** The slots before `step` hold trimmed non-blank answers; the ones from it on are
      empty. */
  ghost predicate SlotsFilledUpTo(state: BotState, step: int) {
    && (forall k :: 0 <= k < step ==> !IsBlank(Field(state, k)) && Trim(Field(state, k)) == Field(state, k))
    && (forall k :: step <= k < FinalStep ==> Field(state, k) == "")
  }

  /** The transcript is the opening plus question-answer pairs and ends with the question
      of `step`. */
  ghost predicate TranscriptAt(messages: seq<Message>, step: int) {
    && |messages| >= 2 && |messages| % 2 == 0
    && messages[|messages| - 1] == Message(Assistant, NextQuestion(step))
  }

  /** What every reachable session satisfies. */
  ghost predicate Reachable(s: Session) {
    && 0 <= s.step <= FinalStep
    && SlotsFilledUpTo(s.state, s.step)
    && TranscriptAt(s.messages, s.step)
  }

  lemma ResetReachable()
    ensures Reachable(Reset())
  {
  }

  lemma TrimmedAnswer(answerRaw: string)
    requires !IsBlank(answerRaw)
    ensures !IsBlank(Trim(answerRaw)) && Trim(Trim(answerRaw)) == Trim(answerRaw)
  {
    TrimOfTrimmed(Trim(answerRaw));
  }

  lemma RecordFills(state: BotState, step: int, answer: string)
    requires 0 <= step <= FinalStep && SlotsFilledUpTo(state, step)
    requires !IsBlank(answer) && Trim(answer) == answer
    ensures SlotsFilledUpTo(Record(state, step, answer), if step + 1 < FinalStep then step + 1 else FinalStep)
  {
    var r := Record(state, step, answer);
    var next := if step + 1 < FinalStep then step + 1 else FinalStep;
    forall k | 0 <= k < next
      ensures !IsBlank(Field(r, k)) && Trim(Field(r, k)) == Field(r, k)
    {
      if k != step {
        assert Field(r, k) == Field(state, k);
      }
    }
    forall k | next <= k < FinalStep
      ensures Field(r, k) == ""
    {
      assert Field(r, k) == Field(state, k);
    }
  }

  lemma TranscriptExtends(m: seq<Message>, step: int, x: Message, next: int)
    requires TranscriptAt(m, step)
    ensures TranscriptAt(m + [x, Message(Assistant, NextQuestion(next))], next)
  {
    var y := Message(Assistant, NextQuestion(next));
    assert (m + [x, y])[|m| + 1] == y;
  }

  /** Answering keeps a session reachable. */
  lemma ApplyAnswerReachable(s: Session, answerRaw: string)
    requires Reachable(s)
    ensures Reachable(ApplyAnswer(s, answerRaw))
  {
    if !IsBlank(answerRaw) {
      var answer := Trim(answerRaw);
      TrimmedAnswer(answerRaw);
      var r := ApplyAnswer(s, answerRaw);
      RecordFills(s.state, s.step, answer);
      TranscriptExtends(s.messages, s.step, Message(User, answer), r.step);
    }
  }

  /** Four non-blank answers from the start fill the template with the trimmed answers,
      reach the last step, and leave ten messages. */
  lemma FourAnswersFillTheTemplate(target: string, problem: string, outcome: string, approach: string)
    requires !IsBlank(target) && !IsBlank(problem) && !IsBlank(outcome) && !IsBlank(approach)
    ensures var s := ApplyAnswer(ApplyAnswer(ApplyAnswer(ApplyAnswer(Reset(), target), problem), outcome), approach);
      && s.step == FinalStep
      && |s.messages| == 10
      && BuildCla(s.state) == Sentence(Trim(target), Trim(problem), Trim(approach), Trim(outcome))
  {
    var s1 := ApplyAnswer(Reset(), target);
    var s2 := ApplyAnswer(s1, problem);
    var s3 := ApplyAnswer(s2, outcome);
    var s4 := ApplyAnswer(s3, approach);
    TrimmedAnswer(target);
    TrimmedAnswer(problem);
    TrimmedAnswer(outcome);
    TrimmedAnswer(approach);
    assert s1.step == 1 && Field(s1.state, 0) == Trim(target);
    assert s2.step == 2 && Field(s2.state, 1) == Trim(problem) && Field(s2.state, 0) == Trim(target);
    assert s3.step == 3 && Field(s3.state, 2) == Trim(outcome);
    assert Field(s3.state, 0) == Trim(target) && Field(s3.state, 1) == Trim(problem);
    assert s4.step == 4 && Field(s4.state, 3) == Trim(approach);
    assert Field(s4.state, 0) == Trim(target) && Field(s4.state, 1) == Trim(problem) && Field(s4.state, 2) == Trim(outcome);
  }

  /** The draft before any answer shows every placeholder. */
  lemma OpeningDraft()
    ensures BuildCla(Reset().state) == Sentence(TargetPlaceholder, ProblemPlaceholder, ApproachPlaceholder, OutcomePlaceholder)
  {
    BlankIffAllSpace("");
  }

  /** Once every question is answered, further answers only extend the transcript. */
  lemma AnswersAfterTheLastStep(s: Session, answerRaw: string)
    requires s.step == FinalStep && !IsBlank(answerRaw)
    ensures ApplyAnswer(s, answerRaw).state == s.state && ApplyAnswer(s, answerRaw).step == FinalStep
  {
  }
}
