/**
 * The second lab's capital-city quiz over the UIO device: KEY0 draws a
 * question, KEY0..KEY3 answer it, a correct answer adds one to the score
 * shown on the first display and a wrong one resets it; the game ends once
 * the score passes 15.
 */
module CapitalQuiz {
  import opened CTypes
  import opened Wrappers
  import opened SevenSeg
  import opened PushButtons

  const NB_POSSIBILITIES: int := 4
  const NB_QUESTIONS: int := 5
  const MIN_VALUE: int := 0
  const MAX_VALUE: int := 0xF

  datatype Response = Response(response: string, isCorrect: bool)
  datatype QuestionPrompt = QuestionPrompt(country: string, possibilities: seq<Response>)

  /** `questions`: the five countries and their four possible capitals. */
  const QUESTIONS: seq<QuestionPrompt> := [
    QuestionPrompt("Suisse", [Response("Zurich", false), Response("Geneva", false),
                              Response("Bern", true), Response("Lausanne", false)]),
    QuestionPrompt("France", [Response("Lyon", false), Response("Marseille", false),
                              Response("Toulouse", false), Response("Paris", true)]),
    QuestionPrompt("Belgique", [Response("Anvers", false), Response("Gand", false),
                                Response("Charleroi", false), Response("Bruxelles", true)]),
    QuestionPrompt("Allemagne", [Response("Berlin", true), Response("Hambourg", false),
                                 Response("Munich", false), Response("Cologne", false)]),
    QuestionPrompt("Espagne", [Response("Barcelone", false), Response("Madrid", true),
                               Response("Valence", false), Response("Séville", false)])
  ]

  /** Whether possibility `r` of question `q` is the right one. */
  predicate IsCorrect(q: int, r: int)
    requires 0 <= q < NB_QUESTIONS && 0 <= r < NB_POSSIBILITIES
  {
    QUESTIONS[q].possibilities[r].isCorrect
  }

  /** The right possibility of each question. */
  function CorrectAnswer(q: int): (r: int)
    requires 0 <= q < NB_QUESTIONS
    ensures 0 <= r < NB_POSSIBILITIES
  {
    [2, 3, 3, 0, 1][q]
  }

  /** Every question has exactly one correct possibility. */
  lemma ExactlyOneCorrect(q: int, r: int)
    requires 0 <= q < NB_QUESTIONS && 0 <= r < NB_POSSIBILITIES
    ensures IsCorrect(q, r) <==> r == CorrectAnswer(q)
  {
  }

  /** `get_random_question`: `rand() % 5` of a non-negative `rand()`. */
  function RandomQuestion(rand: nat): (q: int)
    ensures 0 <= q < NB_QUESTIONS
  {
    rand % NB_QUESTIONS
  }

  /** The mask of KEY`k`. */
  function KeyMask(k: int): int
    requires 0 <= k < NB_POSSIBILITIES
  {
    [KEY0, KEY1, KEY2, KEY3][k]
  }

  /** The `if`/`else if` chain on the buttons: the lowest pressed key, or -1. */
  function ResponseOf(btn: U8): (r: int)
    ensures -1 <= r < NB_POSSIBILITIES
  {
    if HasBit(btn, KEY0) then 0
    else if HasBit(btn, KEY1) then 1
    else if HasBit(btn, KEY2) then 2
    else if HasBit(btn, KEY3) then 3
    else -1
  }

  /** The response is the index of the lowest key bit set, and -1 exactly when no key bit is set. */
  lemma ResponseIsLowestKey(btn: U8)
    ensures ResponseOf(btn) == -1 <==> btn % 16 == 0
    ensures var r := ResponseOf(btn);
            r != -1 ==> 0 <= r < NB_POSSIBILITIES && HasBit(btn, KeyMask(r))
                        && forall j :: 0 <= j < r ==> !HasBit(btn, KeyMask(j))
  {
    LowNibble(btn);
  }

  /** The four key bits of `btn` are the four bits of `btn % 16`. */
  lemma LowNibble(btn: U8)
    ensures var b0, b1, b2, b3 := btn % 2, (btn / 2) % 2, (btn / 4) % 2, (btn / 8) % 2;
            btn % 16 == b0 + 2 * b1 + 4 * b2 + 8 * b3
            && (HasBit(btn, KEY0) <==> b0 == 1) && (HasBit(btn, KEY1) <==> b1 == 1)
            && (HasBit(btn, KEY2) <==> b2 == 1) && (HasBit(btn, KEY3) <==> b3 == 1)
  {
    var q1, q2, q3, q4 := btn / 2, btn / 4, btn / 8, btn / 16;
    assert q1 == 2 * q2 + q1 % 2;
    assert q2 == 2 * q3 + q2 % 2;
    assert q3 == 2 * q4 + q3 % 2;
    assert btn == 16 * q4 + btn % 16;
  }

  /** How the uio round-trip of one loop iteration went. */
  datatype Io =
    | WriteFailed            // writing the unmask word failed: `main` returns -1
    | PollFailed             // `poll` < 0: the loop breaks
    | ShortRead              // the read did not return a full word: no button
    | Interrupt(edge: U8)    // the edge-capture register after the interrupt
    | Stopped                // SIGINT cleared `running` before the iteration

  /** Whether `main` is still looping or has returned with a code. */
  datatype Phase = Playing | Exited(code: int)

  /** The quiz as one value: score, question, display word, LED register and phase. */
  datatype Quiz = Quiz(score: int, current: Option<int>, hex: U32, leds: U16, phase: Phase)

  /** Everything cleared as `main` leaves it on its way out. */
  function Cleanup(q: Quiz, code: int): Quiz
  {
    q.(hex := 0, leds := 0, phase := Exited(code))
  }

  /** One iteration of `while (running)`, with `rand` the value `rand()` returns if a question is drawn. */
  function NextQuiz(q: Quiz, io: Io, rand: nat): (r: Quiz)
    requires q.current.Some? ==> 0 <= q.current.value < NB_QUESTIONS
    ensures q.phase.Exited? ==> r == q
    ensures r.phase.Playing? ==> q.phase.Playing? && r.leds == q.leds
    ensures r.current.Some? ==> 0 <= r.current.value < NB_QUESTIONS
  {
    if q.phase.Exited? then q
    else if io.Stopped? || io.PollFailed? then Cleanup(q, 0)
    else if io.WriteFailed? then q.(phase := Exited(-1))
    else
      var btn := if io.Interrupt? then io.edge else 0;
      if HasBit(btn, KEY0) && q.current.None? then q.(current := Some(RandomQuestion(rand)))
      else
        var response := ResponseOf(btn);
        if q.current.None? || response == -1 then q
        else if IsCorrect(q.current.value, response) then
          if q.score + 1 > MAX_VALUE then Cleanup(q.(score := q.score + 1), 0)
          else q.(score := q.score + 1, current := None, hex := IntTo7Seg(q.score + 1))
        else q.(score := MIN_VALUE, current := None, hex := IntTo7Seg(MIN_VALUE))
  }

  /** While playing the score is in 0..15, on the display, and the question is one of the five. */
  ghost predicate Consistent(q: Quiz)
  {
    (q.current.Some? ==> 0 <= q.current.value < NB_QUESTIONS)
    && (q.phase.Playing? ==> MIN_VALUE <= q.score <= MAX_VALUE && q.hex == IntTo7Seg(q.score))
  }

  /** Every iteration keeps the quiz consistent. */
  lemma NextQuizConsistent(q: Quiz, io: Io, rand: nat)
    requires Consistent(q)
    ensures Consistent(NextQuiz(q, io, rand))
  {
  }

  /** KEY0 without a question draws one and scores nothing. */
  lemma KeyZeroDrawsQuestion(q: Quiz, edge: U8, rand: nat)
    requires Consistent(q) && q.phase.Playing? && q.current.None? && HasBit(edge, KEY0)
    ensures NextQuiz(q, Interrupt(edge), rand) == q.(current := Some(rand % 5))
  {
  }

  /** Without a question, KEY1..KEY3 change nothing. */
  lemma AnswerWithoutQuestionIgnored(q: Quiz, edge: U8, rand: nat)
    requires Consistent(q) && q.phase.Playing? && q.current.None? && !HasBit(edge, KEY0)
    ensures NextQuiz(q, Interrupt(edge), rand) == q
  {
  }

  /**
   * An answer to the current question: a right one adds one to the score
   * (and past 15 ends the game), a wrong one resets it; either way the
   * question is cleared and the score shown.
   */
  lemma AnswerScores(q: Quiz, edge: U8, rand: nat)
    requires Consistent(q) && q.phase.Playing? && q.current.Some? && ResponseOf(edge) != -1
    ensures var n := NextQuiz(q, Interrupt(edge), rand);
            var right := ResponseOf(edge) == CorrectAnswer(q.current.value);
            (right && q.score < MAX_VALUE ==> n == q.(score := q.score + 1, current := None, hex := IntTo7Seg(q.score + 1)))
            && (right && q.score == MAX_VALUE ==> n.phase == Exited(0) && n.score == 16 && n.hex == 0)
            && (!right ==> n == q.(score := 0, current := None, hex := IntTo7Seg(0)))
  {
    ResponseIsLowestKey(edge);
    ExactlyOneCorrect(q.current.value, ResponseOf(edge));
  }

  /** The quiz after the iterations `rounds`, each an uio outcome and the `rand()` it would draw. */
  function Played(q: Quiz, rounds: seq<(Io, nat)>): (r: Quiz)
    requires Consistent(q)
    ensures Consistent(r)
    decreases |rounds|
  {
    if rounds == [] then q
    else
      var before := Played(q, rounds[..|rounds| - 1]);
      NextQuizConsistent(before, rounds[|rounds| - 1].0, rounds[|rounds| - 1].1);
      NextQuiz(before, rounds[|rounds| - 1].0, rounds[|rounds| - 1].1)
  }

  /** Once `main` has returned, nothing changes any more. */
  lemma {:induction false} ExitIsFinal(q: Quiz, rounds: seq<(Io, nat)>)
    requires Consistent(q) && q.phase.Exited?
    ensures Played(q, rounds) == q
    decreases |rounds|
  {
    if rounds != [] {
      ExitIsFinal(q, rounds[..|rounds| - 1]);
    }
  }

  /** The program's state. */
  class QuizGame {
    var score: int
    var current: Option<int>
    /** The first display word (`uint32_t` register). */
    var hex: U32
    var leds: U16
    var phase: Phase

    function State(): Quiz
      reads this
    {
      Quiz(score, current, hex, leds, phase)
    }

    ghost predicate Valid()
      reads this
    {
      Consistent(State())
    }

    /** `main` before its loop: LEDs and displays cleared, score 0 shown, no question. */
    constructor ()
      ensures Valid() && State() == Quiz(MIN_VALUE, None, IntTo7Seg(MIN_VALUE), 0, Playing)
    {
      score := MIN_VALUE;
      current := None;
      hex := IntTo7Seg(MIN_VALUE);
      leds := 0;
      phase := Playing;
    }

    /** The clean-up after the loop. */
    method Exit(code: int)
      modifies this
      ensures State() == Cleanup(old(State()), code)
    {
      leds := 0;
      hex := 0;
      phase := Exited(code);
    }

    /** The `while (running)` loop over `rounds`, left as soon as `main` returns. */
    method Play(rounds: seq<(Io, nat)>)
      requires Valid()
      modifies this
      ensures Valid() && State() == Played(old(State()), rounds)
    {
      var i := 0;
      while i < |rounds| && phase.Playing?
        invariant 0 <= i <= |rounds| && Valid()
        invariant State() == Played(old(State()), rounds[..i])
      {
        assert rounds[..i + 1][..i] == rounds[..i];
        Round(rounds[i].0, rounds[i].1);
        i := i + 1;
      }
      if i < |rounds| {
        ExitAfter(old(State()), rounds, i);
      }
      assert rounds[..|rounds|] == rounds;
    }

    /** One iteration of `while (running)`. */
    method Round(io: Io, rand: nat)
      requires Valid() && phase.Playing?
      modifies this
      ensures Valid() && State() == NextQuiz(old(State()), io, rand)
    {
      NextQuizConsistent(State(), io, rand);
      if io.Stopped? || io.PollFailed? {
        Exit(0);
        return;
      }
      if io.WriteFailed? {
        phase := Exited(-1);
        return;
      }
      var btn: U8 := if io.Interrupt? then io.edge else 0;
      var response := -1;
      if HasBit(btn, KEY0) {
        if current.None? {
          current := Some(RandomQuestion(rand));
          return;
        }
        response := 0;
      } else if HasBit(btn, KEY1) {
        response := 1;
      } else if HasBit(btn, KEY2) {
        response := 2;
      } else if HasBit(btn, KEY3) {
        response := 3;
      }
      if current.Some? && response != -1 {
        if QUESTIONS[current.value].possibilities[response].isCorrect {
          score := score + 1;
          if score > MAX_VALUE {
            Exit(0);
            return;
          }
        } else {
          score := MIN_VALUE;
        }
        current := None;
        hex := IntTo7Seg(score);
      }
    }
  }

  /** Rounds after `main` returned leave the quiz as the first `i` rounds left it. */
  lemma {:induction false} ExitAfter(q: Quiz, rounds: seq<(Io, nat)>, i: int)
    requires Consistent(q) && 0 <= i <= |rounds| && Played(q, rounds[..i]).phase.Exited?
    ensures Played(q, rounds) == Played(q, rounds[..i])
    decreases |rounds| - i
  {
    if i < |rounds| {
      assert rounds[..i + 1][..i] == rounds[..i];
      ExitAfter(q, rounds, i + 1);
    } else {
      assert rounds[..i] == rounds;
    }
  }

  /**
   * Drawing Switzerland and answering Bern (KEY2) scores 1; drawing France
   * and answering Lyon (KEY0) resets the score to 0.
   */
  method RightThenWrong() returns (afterRight: int, shownRight: U32, afterWrong: int, shownWrong: U32)
    ensures afterRight == 1 && shownRight == 0x06 && afterWrong == 0 && shownWrong == 0x3F
  {
    var g := new QuizGame();
    g.Round(Interrupt(1), 0);
    g.Round(Interrupt(4), 7);
    afterRight := g.score;
    shownRight := g.hex;
    g.Round(Interrupt(1), 6);
    g.Round(Interrupt(1), 3);
    afterWrong := g.score;
    shownWrong := g.hex;
  }
}
