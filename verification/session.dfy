/**
 The session the program runs: load the questions, shuffle them when asked,
 then run attempts. After an attempt that completed, its score is printed and,
 when an output file is named, saved; with retry enabled the user is asked
 whether to go again and only a reply that normalises to "yes" starts
 another attempt. An attempt that times out ends the session at once.
 */
module Session {
  import opened Text
  import opened Records
  import opened Sequencer
  import opened Attempt

  /** The settings that shape a session. The file name and the time limit
      are not here: the file arrives already decoded, and the limit shows as
      the place of the timer's event in each attempt's script. */
  datatype Config = Config(shuffle: bool, output: string, retry: bool)

  /** What standard input supplies around one attempt: the events the
      attempt sees, then the reply typed at the retry prompt. */
  datatype Round = Round(events: seq<Event>, reply: string)

  /** Standard input at its end: no events, and a line read that returns
      nothing (its error is ignored by the retry prompt). The attempt's
      reader goroutine, which may end the process first, is not modelled here. */
  const Exhausted: Round := Round([], "")

  /** A printed score line: points out of the number of questions. */
  datatype Report = Report(score: nat, total: nat)

  datatype End =
    | Finished                     // the last attempt completed and no retry was asked for
    | TimedOutEnd                  // an attempt timed out: the error is printed and the session returns
    | Aborted                      // standard input ended while a question waited, which stops the process
    | LoadFailed(error: LoadError) // the questions could not be loaded, which stops the process

  /** What a session leaves behind: how many attempts ran, the scores
      printed, the scores appended to the output file, and how it ended. */
  datatype Run = Run(attempts: nat, reports: seq<Report>, saved: seq<Report>, end: End)

  /** The retry prompt accepts a reply whose key is "yes" (`WantsRetryIff`
      restates this with the program's normalisation). */
  predicate WantsRetry(reply: string) {
    Key(reply) == "yes"
  }

  /** The input of round `i`; past the end of the script, input is exhausted. */
  function RoundAt(rounds: seq<Round>, i: nat): Round {
    if i < |rounds| then rounds[i] else Exhausted
  }

  /** What one round decides: the outcome of its attempt, and whether the
      reply to the retry prompt asks for another attempt. */
  datatype Turn = Turn(outcome: Outcome, again: bool)

  function TurnOf(qs: seq<Question>, cfg: Config, round: Round): Turn {
    Turn(Ask(qs, round.events), cfg.retry && WantsRetry(round.reply))
  }

  /** The turns a script offers, one per round and a last one for exhausted input. */
  function Turns(qs: seq<Question>, cfg: Config, rounds: seq<Round>): (ts: seq<Turn>)
    ensures |ts| == |rounds| + 1
  {
    seq(|rounds| + 1, i requires 0 <= i <= |rounds| => TurnOf(qs, cfg, RoundAt(rounds, i)))
  }

  /** The attempt loop of the program, walking the turns: a timed-out attempt
      ends the session without a score line, input that ends inside an
      attempt stops the process, and a completed attempt prints its score,
      saves it when asked, and is followed by another only if its turn says so. */
  function Drive(total: nat, save: bool, turns: seq<Turn>): (r: Run)
    requires |turns| > 0
    ensures 1 <= r.attempts <= |turns|
    ensures r.end != Finished ==> |r.reports| == r.attempts - 1
    ensures r.end == Finished ==> |r.reports| == r.attempts
    ensures !r.end.LoadFailed?
    ensures r.saved == if save then r.reports else []
    ensures forall i :: 0 <= i < |r.reports| ==> r.reports[i] == Report(turns[i].outcome.score, total)
    ensures forall i :: 0 <= i < r.attempts - 1 ==> turns[i].again && turns[i].outcome.status == Completed
    ensures var last := turns[r.attempts - 1];
            && (r.end == Finished <==> last.outcome.status == Completed)
            && (r.end == TimedOutEnd <==> last.outcome.status == TimedOut)
            && (r.end == Aborted <==> last.outcome.status == InputEnded)
            && (r.end == Finished ==> !(last.again && r.attempts < |turns|))
    decreases |turns|
  {
    var t := turns[0];
    match t.outcome.status
    case TimedOut => Run(1, [], [], TimedOutEnd)
    case InputEnded => Run(1, [], [], Aborted)
    case Completed =>
      var report := Report(t.outcome.score, total);
      var saved := if save then [report] else [];
      if t.again && |turns| > 1 then
        var rest := Drive(total, save, turns[1..]);
        Run(1 + rest.attempts, [report] + rest.reports, saved + rest.saved, rest.end)
      else
        Run(1, [report], saved, Finished)
  }

  /** Each printed score is that of the attempt in its own round, out of
      the number of questions. */
  predicate ScoresOwnRound(qs: seq<Question>, rounds: seq<Round>, r: Run) {
    forall i :: 0 <= i < |r.reports| ==> r.reports[i] == Report(Ask(qs, RoundAt(rounds, i).events).score, |qs|)
  }

  /** Every attempt before the last ran inside the script, completed, and was
      followed by a reply of "yes" with retry enabled. */
  predicate EarlierRoundsRetried(qs: seq<Question>, cfg: Config, rounds: seq<Round>, r: Run) {
    forall i :: 0 <= i < r.attempts - 1 ==>
      && cfg.retry && i < |rounds|
      && Ask(qs, rounds[i].events).status == Completed
      && WantsRetry(rounds[i].reply)
  }

  /** The round of the last attempt decides how the session ended, and a
      session that finished normally was not asked to go again. */
  predicate LastRoundDecides(qs: seq<Question>, cfg: Config, rounds: seq<Round>, r: Run)
    requires r.attempts > 0
  {
    var last := RoundAt(rounds, r.attempts - 1);
    var a := Ask(qs, last.events);
    && (r.end == Finished <==> a.status == Completed)
    && (r.end == TimedOutEnd <==> a.status == TimedOut)
    && (r.end == Aborted <==> a.status == InputEnded)
    && (r.end == Finished ==> !(cfg.retry && WantsRetry(last.reply)))
  }

  /** The session over a loaded question list and a script of rounds. */
  function Loop(qs: seq<Question>, cfg: Config, rounds: seq<Round>): (r: Run)
    ensures 1 <= r.attempts <= |rounds| + 1
    ensures !cfg.retry ==> r.attempts == 1
    ensures !r.end.LoadFailed?
    ensures |r.reports| == if r.end == Finished then r.attempts else r.attempts - 1
    ensures r.saved == if cfg.output != "" then r.reports else []
    ensures forall i :: 0 <= i < |r.reports| ==> r.reports[i].score <= r.reports[i].total == |qs|
    ensures ScoresOwnRound(qs, rounds, r)
    ensures EarlierRoundsRetried(qs, cfg, rounds, r)
    ensures LastRoundDecides(qs, cfg, rounds, r)
  {
    var ts := Turns(qs, cfg, rounds);
    var r := Drive(|qs|, cfg.output != "", ts);
    DriveReports(qs, cfg, rounds, ts, r);
    DriveRetried(qs, cfg, rounds, ts, r);
    DriveLast(qs, cfg, rounds, ts, r);
    r
  }

  lemma DriveReports(qs: seq<Question>, cfg: Config, rounds: seq<Round>, ts: seq<Turn>, r: Run)
    requires ts == Turns(qs, cfg, rounds) && r == Drive(|qs|, cfg.output != "", ts)
    ensures ScoresOwnRound(qs, rounds, r)
  {
    forall i | 0 <= i < |r.reports|
      ensures r.reports[i] == Report(Ask(qs, RoundAt(rounds, i).events).score, |qs|)
    {
      assert ts[i] == TurnOf(qs, cfg, RoundAt(rounds, i));
    }
  }

  lemma DriveRetried(qs: seq<Question>, cfg: Config, rounds: seq<Round>, ts: seq<Turn>, r: Run)
    requires ts == Turns(qs, cfg, rounds) && r == Drive(|qs|, cfg.output != "", ts)
    ensures EarlierRoundsRetried(qs, cfg, rounds, r)
  {
    ExhaustedInputStops();
    forall i | 0 <= i < r.attempts - 1
      ensures cfg.retry && i < |rounds|
      ensures Ask(qs, rounds[i].events).status == Completed && WantsRetry(rounds[i].reply)
    {
      assert ts[i] == TurnOf(qs, cfg, RoundAt(rounds, i));
    }
  }

  lemma DriveLast(qs: seq<Question>, cfg: Config, rounds: seq<Round>, ts: seq<Turn>, r: Run)
    requires ts == Turns(qs, cfg, rounds) && r == Drive(|qs|, cfg.output != "", ts)
    ensures LastRoundDecides(qs, cfg, rounds, r)
  {
    ExhaustedInputStops();
    assert ts[r.attempts - 1] == TurnOf(qs, cfg, RoundAt(rounds, r.attempts - 1));
  }

  /** The whole program: a failed load stops it before any attempt; otherwise
      a reordering of the loaded questions (the file order unless shuffling
      is asked for) goes through the attempt loop, so everything `Loop`
      promises holds of the session. */
  function Main(input: Decoded, cfg: Config, draws: seq<nat>, rounds: seq<Round>): (r: Run)
    ensures r.end.LoadFailed? <==> ReadCsv(input).Failed?
    ensures r.end.LoadFailed? ==> r.end.error == ReadCsv(input).error && r.attempts == 0 && r.reports == [] && r.saved == []
    ensures ReadCsv(input).Loaded? ==> 1 <= r.attempts
    ensures ReadCsv(input).Loaded? ==> |r.reports| == if r.end == Finished then r.attempts else r.attempts - 1
    ensures ReadCsv(input).Loaded? ==> forall i :: 0 <= i < |r.reports| ==>
              r.reports[i].total == |ReadCsv(input).questions|
    ensures ReadCsv(input).Loaded? ==> exists order ::
              && multiset(order) == multiset(ReadCsv(input).questions)
              && (!cfg.shuffle ==> order == ReadCsv(input).questions)
              && r == Loop(order, cfg, rounds)
  {
    match ReadCsv(input)
    case Failed(e) => Run(0, [], [], LoadFailed(e))
    case Loaded(qs) =>
      OrderIsPermutation(qs, cfg, draws);
      Loop(Order(qs, cfg, draws), cfg, rounds)
  }

  /** The order the questions are asked in. */
  function Order(qs: seq<Question>, cfg: Config, draws: seq<nat>): seq<Question> {
    if cfg.shuffle then Shuffle(qs, draws) else qs
  }

  /** A script that has run out never asks for another attempt. */
  lemma ExhaustedInputStops()
    ensures !WantsRetry(Exhausted.reply)
  {
  }

  /** Another attempt follows exactly when the reply normalises to "yes",
      which is the same as the reply matching "yes" like an answer: case and
      surrounding white space do not matter. */
  lemma {:induction false} WantsRetryIff(reply: string)
    ensures WantsRetry(reply) <==> Normalize(reply) == "yes"
    ensures WantsRetry(reply) <==> Matches(reply, "yes")
  {
    YesIsItsOwnKey();
    KeyIsNormalize(reply);
  }

  lemma YesIsItsOwnKey()
    ensures Key("yes") == "yes"
  {
    var yes := "yes";
    ToLowerIdentity(yes);
    assert Key(yes) == ToLower(yes);
  }

  /** A typed "Yes" with its line terminator asks for another attempt. */
  lemma YesWithNewlineRetries()
    ensures WantsRetry("Yes\n")
  {
    WantsRetryIff("Yes\n");
    assert "Yes\n" == [] + "Yes" + "\n";
    MatchIgnoresPadding([], "Yes", "\n", "yes");
    MatchIgnoresCase("Yes", "yes");
  }

  /** Shuffling does not change what is asked: the attempt loop runs over a
      reordering of exactly the loaded questions. */
  lemma OrderIsPermutation(qs: seq<Question>, cfg: Config, draws: seq<nat>)
    ensures multiset(Order(qs, cfg, draws)) == multiset(qs)
    ensures !cfg.shuffle || |qs| <= 1 ==> Order(qs, cfg, draws) == qs
  {
    ShufflePermutes(qs, draws);
  }
}
