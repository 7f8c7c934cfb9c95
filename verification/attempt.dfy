/**
 One timed attempt at the quiz. The program races a background line reader
 against a single timer for the whole attempt; here the environment decides
 the race, and an attempt sees a script of events: the next typed line, or
 the timer firing. A script that runs out while a question waits is standard
 input reaching its end there, which the background reader treats as fatal.
 The reader's failure at end of input when no question waits is not
 modelled: such an attempt simply completes.
 */
module Attempt {
  import opened Text
  import opened Records

  /** What the attempt receives while it waits on a question. */
  datatype Event = Line(text: string) | Timeout

  datatype Status =
    | Completed    // every question was answered before the timer fired
    | TimedOut     // the timer fired while a question was waiting
    | InputEnded   // standard input ended while a question was waiting

  /** What an attempt leaves behind: its score, how it ended, the prompts it
      wrote, and how many events it took from the script. */
  datatype Outcome = Outcome(score: nat, status: Status, prompts: seq<string>, consumed: nat)

  /** The text written before waiting on a question. */
  function Prompt(q: Question): string {
    q.question + ": "
  }

  function PromptsOf(qs: seq<Question>): seq<string> {
    seq(|qs|, i requires 0 <= i < |qs| => Prompt(qs[i]))
  }

  /** An event earns the point of a question when it is a line that matches its answer. */
  predicate Scores(e: Event, q: Question) {
    e.Line? && Matches(e.text, q.answer)
  }

  /** The first `k` events are all typed lines. */
  predicate AllLines(events: seq<Event>, k: nat)
    requires k <= |events|
  {
    forall i :: 0 <= i < k ==> events[i].Line?
  }

  /** How many of the first `k` questions were answered correctly by the
      first `k` events: an independent count, built from the last question back. */
  function CountCorrect(qs: seq<Question>, events: seq<Event>, k: nat): nat
    requires k <= |qs| && k <= |events|
  {
    if k == 0 then 0
    else CountCorrect(qs, events, k - 1) + (if Scores(events[k - 1], qs[k - 1]) then 1 else 0)
  }

  /** `askQuestions`: for each question in order, write its prompt, then take
      the next event; the timer ends the attempt with the score so far, a
      line adds one point when it matches the expected answer. */
  function Ask(qs: seq<Question>, events: seq<Event>): (a: Outcome)
    ensures a.score <= |qs|
    ensures a.score <= a.consumed <= |events|
    ensures |qs| == 0 ==> a.status == Completed && a.prompts == [] && a.consumed == 0
    ensures a.status == Completed ==> a.consumed == |qs| && |a.prompts| == |qs|
    ensures a.status == TimedOut ==> 0 < a.consumed <= |qs| && |a.prompts| == a.consumed && a.score < a.consumed
    ensures a.status == InputEnded ==> a.consumed == |events| < |qs| && |a.prompts| == a.consumed + 1
  {
    if |qs| == 0 then Outcome(0, Completed, [], 0)
    else
      var p := Prompt(qs[0]);
      if |events| == 0 then Outcome(0, InputEnded, [p], 0)
      else match events[0]
        case Timeout => Outcome(0, TimedOut, [p], 1)
        case Line(text) =>
          var rest := Ask(qs[1..], events[1..]);
          Outcome(rest.score + (if Matches(text, qs[0].answer) then 1 else 0),
                  rest.status, [p] + rest.prompts, rest.consumed + 1)
  }

  /** The prompts an attempt writes are those of the questions it reached, in order. */
  lemma {:induction false} AskPromptsInOrder(qs: seq<Question>, events: seq<Event>)
    ensures var a := Ask(qs, events); a.prompts == PromptsOf(qs[..|a.prompts|])
  {
    if |qs| > 0 && |events| > 0 && events[0].Line? {
      var rest := Ask(qs[1..], events[1..]);
      AskPromptsInOrder(qs[1..], events[1..]);
      var k := |rest.prompts|;
      assert Ask(qs, events).prompts == [Prompt(qs[0])] + rest.prompts;
      assert qs[1..][..k] == qs[1..k + 1];
      PromptsOfCons(qs, k + 1);
    }
  }

  /** How an attempt stopped is read off the script: it took lines up to its
      stopping point, and a timeout stop took the timer's event last. */
  lemma {:induction false} AskStopsWhereScriptSays(qs: seq<Question>, events: seq<Event>)
    ensures var a := Ask(qs, events);
            && (a.status == TimedOut ==> events[a.consumed - 1] == Timeout && AllLines(events, a.consumed - 1))
            && (a.status != TimedOut ==> AllLines(events, a.consumed))
  {
    if |qs| > 0 && |events| > 0 && events[0].Line? {
      var rest := Ask(qs[1..], events[1..]);
      AskStopsWhereScriptSays(qs[1..], events[1..]);
      var a := Ask(qs, events);
      assert a.status == rest.status && a.consumed == rest.consumed + 1;
      assert forall i :: 0 < i < a.consumed ==> events[i] == events[1..][i - 1];
    }
  }

  lemma {:induction false} CountCorrectShift(qs: seq<Question>, events: seq<Event>, k: nat)
    requires 0 < k <= |qs| && k <= |events|
    ensures CountCorrect(qs, events, k)
         == (if Scores(events[0], qs[0]) then 1 else 0) + CountCorrect(qs[1..], events[1..], k - 1)
  {
    if k > 1 {
      CountCorrectShift(qs, events, k - 1);
      assert qs[1..][k - 2] == qs[k - 1] && events[1..][k - 2] == events[k - 1];
    }
  }

  lemma PromptsOfCons(qs: seq<Question>, k: nat)
    requires 0 < k <= |qs|
    ensures PromptsOf(qs[..k]) == [Prompt(qs[0])] + PromptsOf(qs[1..][..k - 1])
  {
  }

  /** When every question gets a line before the timer fires, the attempt
      completes, writes every prompt, takes one event per question and scores
      exactly the questions whose line matched. */
  lemma {:induction false} AllAnswered(qs: seq<Question>, events: seq<Event>)
    requires |qs| <= |events| && AllLines(events, |qs|)
    ensures Ask(qs, events) == Outcome(CountCorrect(qs, events, |qs|), Completed, PromptsOf(qs), |qs|)
  {
    if |qs| > 0 {
      AllAnswered(qs[1..], events[1..]);
      CountCorrectShift(qs, events, |qs|);
      PromptsOfCons(qs, |qs|);
      assert qs[..|qs|] == qs && qs[1..][..|qs| - 1] == qs[1..];
    }
  }

  /** When the timer fires while question `k` waits, the attempt ends there:
      it has written the prompts of questions 0..k, taken k + 1 events, and
      scores only the matches among the first k lines. */
  lemma {:induction false} TimeoutAt(qs: seq<Question>, events: seq<Event>, k: nat)
    requires k < |qs| && k < |events|
    requires AllLines(events, k) && events[k] == Timeout
    ensures Ask(qs, events) == Outcome(CountCorrect(qs, events, k), TimedOut, PromptsOf(qs[..k + 1]), k + 1)
  {
    if k > 0 {
      TimeoutAt(qs[1..], events[1..], k - 1);
      CountCorrectShift(qs, events, k);
      PromptsOfCons(qs, k + 1);
    }
  }

  /** When standard input ends while a question waits, the attempt stops
      there after writing that question's prompt. */
  lemma {:induction false} InputEndsAt(qs: seq<Question>, events: seq<Event>)
    requires |events| < |qs| && AllLines(events, |events|)
    ensures Ask(qs, events)
         == Outcome(CountCorrect(qs, events, |events|), InputEnded, PromptsOf(qs[..|events| + 1]), |events|)
  {
    if |events| > 0 {
      InputEndsAt(qs[1..], events[1..]);
      CountCorrectShift(qs, events, |events|);
      PromptsOfCons(qs, |events| + 1);
    }
  }

  /** The attempt never looks past the events it consumed: once it has
      completed or timed out, whatever follows in the script is irrelevant. */
  lemma {:induction false} OnlyConsumedEventsMatter(qs: seq<Question>, events: seq<Event>, rest: seq<Event>)
    requires Ask(qs, events).status != InputEnded
    ensures var a := Ask(qs, events); Ask(qs, events[..a.consumed] + rest) == a
  {
    var a := Ask(qs, events);
    var e' := events[..a.consumed] + rest;
    if |qs| > 0 {
      assert |events| > 0;
      assert e'[0] == events[0];
      if events[0].Line? {
        var r := Ask(qs[1..], events[1..]);
        assert a.consumed == r.consumed + 1;
        OnlyConsumedEventsMatter(qs[1..], events[1..], rest);
        assert e'[1..] == events[1..][..r.consumed] + rest;
      }
    }
  }

  /** Once an attempt has stopped early, questions after the stopping point
      change nothing: no further prompt is written and no further event taken. */
  lemma {:induction false} StopIsFinal(qs: seq<Question>, more: seq<Question>, events: seq<Event>)
    requires Ask(qs, events).status != Completed
    ensures Ask(qs + more, events) == Ask(qs, events)
  {
    var all := qs + more;
    assert all[0] == qs[0];
    if |events| > 0 && events[0].Line? {
      assert all[1..] == qs[1..] + more;
      StopIsFinal(qs[1..], more, events[1..]);
      assert Ask(all, events) == Ask(qs, events);
    }
  }

  /** The score never goes down as the attempt moves on, and each further
      question adds at most one point. */
  lemma {:induction false} ScoreGrowth(qs: seq<Question>, more: seq<Question>, events: seq<Event>)
    ensures Ask(qs, events).score <= Ask(qs + more, events).score <= Ask(qs, events).score + |more|
  {
    if |qs| == 0 {
      assert qs + more == more;
    } else {
      assert (qs + more)[0] == qs[0];
      if |events| > 0 && events[0].Line? {
        assert (qs + more)[1..] == qs[1..] + more;
        ScoreGrowth(qs[1..], more, events[1..]);
      }
    }
  }

  /** Three questions and a timer that fires before the second answer: the
      attempt times out, scores only the first answer and never writes the
      third prompt. */
  lemma ThreeQuestionsTimeout(qs: seq<Question>, first: string, rest: seq<Event>)
    requires |qs| == 3
    ensures var a := Ask(qs, [Line(first), Timeout] + rest);
            && a.status == TimedOut
            && a.prompts == [Prompt(qs[0]), Prompt(qs[1])]
            && a.score == (if Matches(first, qs[0].answer) then 1 else 0)
  {
  }

  /** The loop of `askQuestions` as written, with a running score and an
      index; it produces exactly the outcome of `Ask`. */
  method AskQuestions(qs: seq<Question>, events: seq<Event>)
    returns (score: nat, status: Status, prompts: seq<string>, consumed: nat)
    ensures Outcome(score, status, prompts, consumed) == Ask(qs, events)
    ensures status == Completed <==> (|qs| <= |events| && AllLines(events, |qs|))
  {
    score, prompts := 0, [];
    var i := 0;
    while i < |qs|
      invariant i <= |qs| && i <= |events|
      invariant AllLines(events, i)
      invariant score == CountCorrect(qs, events, i)
      invariant prompts == PromptsOf(qs[..i])
    {
      prompts := prompts + [Prompt(qs[i])];
      assert prompts == PromptsOf(qs[..i + 1]);
      if i == |events| {
        status, consumed := InputEnded, i;
        InputEndsAt(qs, events);
        return;
      }
      match events[i] {
        case Timeout =>
          status, consumed := TimedOut, i + 1;
          TimeoutAt(qs, events, i);
          return;
        case Line(text) =>
          if Matches(text, qs[i].answer) {
            score := score + 1;
          }
      }
      i := i + 1;
    }
    status, consumed := Completed, |qs|;
    assert qs[..i] == qs;
    AllAnswered(qs, events);
  }
}
