/**
 * The package-finder quiz: five questions answered one at a time, a back
 * and a next button, the progress line, and a recommendation chosen by the
 * answer to the region question.
 */
module QuizNavigation {
  import opened Wrappers
  import opened Strings
  import QuizAnalytics

  /** The ids of the quiz's questions, in order. */
  const QuestionIds: seq<string> := ["region", "content", "devices", "quality", "budget"]

  const RegionQuestion: string := "region"
  const GlobalRegion: string := "global"

  datatype Recommendation = Recommendation(name: string, description: string, features: seq<string>, link: string, buyLink: string)

  /** The state of the two navigation buttons: the back button's display, the next button's `disabled` and caption. */
  datatype Buttons = Buttons(backHidden: bool, nextDisabled: bool, nextCaption: string)

  /** `answers[id]` is truthy: answered with a non-empty value. */
  predicate AnsweredIn(answers: map<string, string>, id: string)
  {
    id in answers && answers[id] != ""
  }

  /**
   * What `showQuestion(index)` writes to the buttons: back hidden on the
   * first question, next disabled while that question is unanswered, and
   * "See Results" on the last question.
   */
  function ButtonsFor(questions: seq<string>, answers: map<string, string>, index: nat): (r: Buttons)
    requires index < |questions|
    ensures r.backHidden <==> index == 0
    ensures r.nextDisabled <==> !AnsweredIn(answers, questions[index])
    ensures r.nextCaption == "See Results" <==> index == |questions| - 1
    ensures r.nextCaption == "See Results" || r.nextCaption == "Next"
  {
    Buttons(index == 0, !AnsweredIn(answers, questions[index]), if index == |questions| - 1 then "See Results" else "Next")
  }

  /**
   * The quiz's position and answers and the state of its two buttons; the
   * recommendation table and the analytics tracker it reports to are fixed
   * at construction.
   */
  class PackageQuiz {
    var currentQuestion: nat
    var answers: map<string, string>
    var buttons: Buttons
    const questions: seq<string>
    const recommendations: map<string, Recommendation>
    const analytics: QuizAnalytics.Tracker

    /** The position is always a question of the quiz, and there is a global fallback. */
    ghost predicate Valid()
      reads this`currentQuestion
    {
      currentQuestion < |questions| && GlobalRegion in recommendations
    }

    /**
     * The quiz starts on its first question with no answers, makes its tracker
     * with tracking on and A/B testing off (over what storage held), and
     * `init` starts the tracked session with no requested variant. `init`
     * does not call `showQuestion`, so the buttons are as the page's markup
     * has them.
     */
    constructor(markup: Buttons, recommendations: map<string, Recommendation>, storedSession: Option<QuizAnalytics.Session>,
                storedCompletions: seq<QuizAnalytics.Completion>, storedAbandonments: seq<QuizAnalytics.Abandonment>,
                storedConversions: seq<QuizAnalytics.Conversion>, storedEvents: seq<QuizAnalytics.Event>,
                sessionId: string, now: int)
      requires GlobalRegion in recommendations
      ensures Valid()
      ensures currentQuestion == 0 && answers == map[] && buttons == markup
      ensures questions == QuestionIds && this.recommendations == recommendations
      ensures fresh(analytics) && analytics.enableTracking && !analytics.enableABTesting
      ensures analytics.session == Some(QuizAnalytics.FreshSession(sessionId, QuizAnalytics.DefaultVariant, now))
      ensures analytics.events == QuizAnalytics.Appended(storedEvents, QuizAnalytics.Tracker.EventFor("quiz_started", now, analytics.session))
      ensures analytics.completions == storedCompletions && analytics.abandonments == storedAbandonments
      ensures analytics.conversions == storedConversions
    {
      currentQuestion := 0;
      answers := map[];
      buttons := markup;
      questions := QuestionIds;
      this.recommendations := recommendations;
      analytics := new QuizAnalytics.Tracker(Some(true), false, storedSession,
        storedCompletions, storedAbandonments, storedConversions, storedEvents);
      new;
      analytics.StartQuiz("", "", sessionId, now);
    }

    /** `this.answers[id]` is truthy. */
    predicate Answered(id: string)
      reads this`answers
    {
      AnsweredIn(answers, id)
    }

    /** `showQuestion(index)`: the buttons are set for that question. */
    method ShowQuestion(index: nat)
      requires index < |questions|
      modifies this`buttons
      ensures buttons == ButtonsFor(questions, answers, index)
    {
      buttons := ButtonsFor(questions, answers, index);
    }

    /**
     * `selectOption`: the answer is stored, replacing an earlier one, the
     * tracker records it against the current position, and the next button
     * is enabled.
     */
    method SelectOption(questionId: string, value: string, now: int)
      requires Valid()
      modifies this`answers, this`buttons, analytics`session, analytics`events
      ensures Valid()
      ensures answers == old(answers)[questionId := value]
      ensures buttons == old(buttons).(nextDisabled := false)
      ensures old(analytics.session).None? ==> analytics.session == None && analytics.events == old(analytics.events)
      ensures old(analytics.session).Some? ==>
        analytics.session == Some(QuizAnalytics.AnsweredSession(old(analytics.session).value, currentQuestion, questionId, value, now)) &&
        analytics.events == analytics.Logged(old(analytics.events), QuizAnalytics.Tracker.EventFor("question_answered", now, analytics.session))
    {
      answers := answers[questionId := value];
      analytics.AnswerQuestion(currentQuestion, questionId, value, now);
      buttons := buttons.(nextDisabled := false);
    }

    /**
     * `previousQuestion`: one step back, reported to the tracker with the new
     * position and shown; on the first question nothing happens.
     */
    method PreviousQuestion(now: int)
      requires Valid()
      modifies this`currentQuestion, this`buttons, analytics`session, analytics`events
      ensures Valid()
      ensures currentQuestion == if old(currentQuestion) > 0 then old(currentQuestion) - 1 else 0
      ensures buttons == if old(currentQuestion) > 0 then ButtonsFor(questions, answers, currentQuestion) else old(buttons)
      ensures (old(currentQuestion) == 0 || old(analytics.session).None?) ==>
        analytics.session == old(analytics.session) && analytics.events == old(analytics.events)
      ensures old(currentQuestion) > 0 && old(analytics.session).Some? ==>
        analytics.session == Some(old(analytics.session).value.(currentQuestion := currentQuestion, questionStart := Some(now))) &&
        analytics.events == analytics.Logged(old(analytics.events), QuizAnalytics.Tracker.EventFor("quiz_navigation_back", now, analytics.session))
    {
      if currentQuestion > 0 {
        currentQuestion := currentQuestion - 1;
        analytics.NavigateBack(currentQuestion, now);
        ShowQuestion(currentQuestion);
      }
    }

    /**
     * `nextQuestion`: nothing while the current question is unanswered; one
     * step forward before the last question; on the last, the results are
     * shown instead, the position stays, and the tracker completes the
     * session with the recommended package's name.
     */
    method NextQuestion(now: int) returns (showResults: bool)
      requires Valid()
      modifies this`currentQuestion, this`buttons, analytics`session, analytics`events, analytics`completions
      ensures Valid()
      ensures buttons == if old(currentQuestion) < currentQuestion then ButtonsFor(questions, answers, currentQuestion) else old(buttons)
      ensures !old(Answered(questions[currentQuestion])) ==> currentQuestion == old(currentQuestion) && !showResults
      ensures old(Answered(questions[currentQuestion])) && old(currentQuestion) < |questions| - 1 ==>
        currentQuestion == old(currentQuestion) + 1 && !showResults
      ensures old(Answered(questions[currentQuestion])) && old(currentQuestion) == |questions| - 1 ==>
        currentQuestion == old(currentQuestion) && showResults
      ensures (!showResults || old(analytics.session).None?) ==>
        analytics.session == old(analytics.session) && analytics.events == old(analytics.events) &&
        analytics.completions == old(analytics.completions)
      ensures showResults && old(analytics.session).Some? ==>
        analytics.session == Some(old(analytics.session).value.(endTime := Some(now), completed := true,
          recommendation := Some(GetRecommendation().name))) &&
        analytics.events == analytics.Logged(old(analytics.events), QuizAnalytics.Tracker.EventFor("quiz_completed", now, analytics.session)) &&
        analytics.completions == old(analytics.completions) + [QuizAnalytics.CompletionOf(analytics.session.value)]
    {
      var id := questions[currentQuestion];
      if !Answered(id) {
        return false;
      }
      if currentQuestion < |questions| - 1 {
        currentQuestion := currentQuestion + 1;
        ShowQuestion(currentQuestion);
        showResults := false;
      } else {
        showResults := true;
        var recommendation := GetRecommendation();
        analytics.CompleteQuiz(Some(recommendation.name), now);
      }
    }

    /**
     * `restart`: back to the first question with no answers. It re-renders the
     * questions but does not call `showQuestion`, so the buttons keep their
     * state.
     */
    method Restart()
      requires Valid()
      modifies this`currentQuestion, this`answers
      ensures Valid()
      ensures currentQuestion == 0 && answers == map[] && buttons == old(buttons)
    {
      currentQuestion := 0;
      answers := map[];
    }

    /** The progress line: "Question k of n", counting from one. */
    function ProgressText(): (r: string)
      reads this`currentQuestion
      ensures |r| > |"Question "| && r[..|"Question "|] == "Question "
    {
      "Question " + NatToString(currentQuestion + 1) + " of " + NatToString(|questions|)
    }

    /**
     * `getRecommendation`: the entry for the region answer (missing or empty
     * reads as "global"); a region without an entry gets the global one.
     */
    function GetRecommendation(): (r: Recommendation)
      reads this`answers
      requires GlobalRegion in recommendations
      ensures r in recommendations.Values
      ensures (Answered(RegionQuestion) && answers[RegionQuestion] in recommendations) ==> r == recommendations[answers[RegionQuestion]]
      ensures !(Answered(RegionQuestion) && answers[RegionQuestion] in recommendations) ==> r == recommendations[GlobalRegion]
    {
      var region := if Answered(RegionQuestion) then answers[RegionQuestion] else GlobalRegion;
      if region in recommendations then recommendations[region] else recommendations[GlobalRegion]
    }

    /** The two numbers of the progress line read back as the position (from one) and the question count. */
    lemma ProgressNumbers()
      ensures Split(ProgressText(), ' ') == ["Question", NatToString(currentQuestion + 1), "of", NatToString(|questions|)]
      ensures DigitsValue(Split(ProgressText(), ' ')[1]) == currentQuestion + 1
      ensures DigitsValue(Split(ProgressText(), ' ')[3]) == |questions|
    {
      var k := NatToString(currentQuestion + 1);
      var n := NatToString(|questions|);
      var parts := ["Question", k, "of", n];
      assert ' ' !in k && ' ' !in n;
      assert forall i :: 0 <= i < |parts| ==> ' ' !in parts[i];
      JoinSplit(parts, ' ');
      assert Join(parts[3..], [' ']) == n;
      assert Join(parts[2..], [' ']) == "of" + " " + n;
      assert Join(parts[1..], [' ']) == k + " " + "of" + " " + n;
      assert Join(parts, [' ']) == ProgressText();
      DigitsRoundTrip(currentQuestion + 1);
      DigitsRoundTrip(|questions|);
    }
  }

  /**
   * A restart from the results view leaves the buttons of the last question:
   * with more than one question they differ from what `showQuestion(0)`
   * would show on the fresh first question (the back button stays shown, the
   * next button stays enabled and reads "See Results").
   */
  lemma RestartKeepsLastButtons(questions: seq<string>, answers: map<string, string>)
    requires |questions| >= 2 && AnsweredIn(answers, questions[|questions| - 1])
    ensures var stale := ButtonsFor(questions, answers, |questions| - 1);
      !stale.backHidden && !stale.nextDisabled && stale.nextCaption == "See Results" &&
      stale != ButtonsFor(questions, map[], 0)
  {
  }
}
