/**
 * One tossup as `Tossup.play_tossup` plays it, with the reader and the
 * listener run one after the other: the reader shows the first `shown`
 * lines and keeps the power flag, then the buzz/answer dialogue decides the
 * outcome from the flag, the "finished reading" flag and a script of
 * messages, timeouts and judge verdicts.
 */
module Buzz {
  import opened Text
  import opened Wrappers
  import Reveal

  /** The directive `check_answer` returns. */
  datatype Verdict = Accept | Reject | Prompt

  /** What one `wait_for` produces: a message from the player, or its timeout. */
  datatype Event = Msg(content: string) | Timeout

  /** The result strings of `play_tossup`. */
  datatype Outcome = Power | Correct | Neg | Dead | EndedByUser

  /** A question record: the text, its answer, and the formatted answer when the record has one. */
  datatype Tossup = Tossup(question: string, answer: string, formattedAnswer: Option<string>)

  /**
   * When the player's first message arrives: never (the reader finishes and
   * the tossup goes dead), or once the reader has shown `shown` lines.
   */
  datatype Buzz = NoBuzz | BuzzAfter(shown: nat, message: string)

  /** The answer the judge compares against: `formatted_answer`, else `answer`. */
  function AnswerKey(t: Tossup): string {
    match t.formattedAnswer
    case Some(a) => a
    case None => t.answer
  }

  /** A message that starts with the command prefix followed by `end`. */
  predicate IsEnd(content: string, prefix: string) {
    StartsWith(content, prefix + "end")
  }

  // ---------------------------------------------------------------- power flag

  /** Displaying `part` clears the power flag: it has a `*` but does not end with `(*)`. */
  predicate Clears(part: string) {
    '*' in part && !EndsWith(part, Reveal.PowerMark)
  }

  /** The power flag after the lines in `shown` were displayed, in order. */
  function PowerFlag(question: string, shown: seq<string>): bool {
    if shown == [] then '*' in question
    else PowerFlag(question, shown[..|shown| - 1]) && !Clears(shown[|shown| - 1])
  }

  /** The flag is set iff the question has a `*` and no displayed line cleared it. */
  lemma {:induction false} PowerFlagClosed(question: string, shown: seq<string>)
    ensures PowerFlag(question, shown) <==> '*' in question && forall k :: 0 <= k < |shown| ==> !Clears(shown[k])
  {
    if shown != [] {
      var front := shown[..|shown| - 1];
      PowerFlagClosed(question, front);
      assert forall k :: 0 <= k < |front| ==> front[k] == shown[k];
    }
  }

  /** Once cleared, the flag stays cleared: it is never set again. */
  lemma {:induction false} PowerFlagNeverSet(question: string, shown: seq<string>, j: nat, k: nat)
    requires j <= k <= |shown|
    ensures PowerFlag(question, shown[..k]) ==> PowerFlag(question, shown[..j])
    decreases k - j
  {
    if j < k {
      assert shown[..k][..k - 1] == shown[..k - 1];
      PowerFlagNeverSet(question, shown, j, k - 1);
    }
  }

  /**
   * The reader task `edit_tossup`: displays the first `shown` lines (all of
   * them if `shown` is larger), clearing the power flag as it goes; it sets
   * `finished` only after the last line.
   */
  method ReadTossup(question: string, parts: seq<string>, shown: nat) returns (canPower: bool, finished: bool)
    ensures canPower == PowerFlag(question, parts[..Reveal.Min(shown, |parts|)])
    ensures finished <==> shown >= |parts|
  {
    var n := Reveal.Min(shown, |parts|);
    canPower := '*' in question;
    var i := 0;
    while i < n
      invariant 0 <= i <= n
      invariant canPower == PowerFlag(question, parts[..i])
    {
      var part := parts[i];
      assert parts[..i + 1][..i] == parts[..i];
      if canPower && '*' in part && !EndsWith(part, Reveal.PowerMark) {
        canPower := false;
      }
      i := i + 1;
    }
    finished := n == |parts|;
  }

  // ---------------------------------------------------------- answer dialogue

  /** No answer, or a rejected one: dead once the whole question was read, else a neg. */
  function Miss(finished: bool): (o: Outcome)
    ensures o == Dead || o == Neg
  {
    if finished then Dead else Neg
  }

  /**
   * The outcome of the answer dialogue that follows a buzz. Each event is
   * the next wait: a timeout (or no further message at all) misses; a
   * message starting with the end command ends the game; otherwise the
   * judge's verdict decides, and a prompt waits for another message.
   */
  function Answer(key: string, canPower: bool, finished: bool, prefix: string,
                  judge: (string, string) -> Verdict, events: seq<Event>): Outcome
    decreases |events|
  {
    if events == [] || events[0].Timeout? then Miss(finished)
    else if IsEnd(events[0].content, prefix) then EndedByUser
    else match judge(key, events[0].content)
      case Accept => if canPower then Power else Correct
      case Reject => Miss(finished)
      case Prompt => Answer(key, canPower, finished, prefix, judge, events[1..])
  }

  /** The buzzer task after the buzz, `listen_for_answer` from taking the lock on. */
  method ListenForAnswer(key: string, canPower: bool, finished: bool, prefix: string,
                         judge: (string, string) -> Verdict, events: seq<Event>) returns (result: Outcome)
    ensures result == Answer(key, canPower, finished, prefix, judge, events)
  {
    if events == [] || events[0].Timeout? {
      return Miss(finished);
    }
    var answer := events[0].content;
    var next := 1;
    while true
      invariant 1 <= next <= |events| && events[next - 1] == Msg(answer)
      invariant Answer(key, canPower, finished, prefix, judge, events[next - 1..])
                == Answer(key, canPower, finished, prefix, judge, events)
      decreases |events| - next
    {
      if IsEnd(answer, prefix) {
        return EndedByUser;
      }
      match judge(key, answer)
      case Accept =>
        return if canPower then Power else Correct;
      case Reject =>
        return Miss(finished);
      case Prompt =>
        assert events[next - 1..][1..] == events[next..];
        if next == |events| || events[next].Timeout? {
          return Miss(finished);
        }
        answer := events[next].content;
        next := next + 1;
    }
  }

  /** A message the dialogue answers with a prompt: not the end command, judged `prompt`. */
  predicate Prompted(key: string, prefix: string, judge: (string, string) -> Verdict, e: Event) {
    e.Msg? && !IsEnd(e.content, prefix) && judge(key, e.content) == Prompt
  }

  /** Prompts re-open the window: any run of prompted answers leaves the outcome to what follows. */
  lemma {:induction false} PromptsReopen(key: string, canPower: bool, finished: bool, prefix: string,
                                         judge: (string, string) -> Verdict, prompts: seq<Event>, rest: seq<Event>)
    requires forall k :: 0 <= k < |prompts| ==> Prompted(key, prefix, judge, prompts[k])
    ensures Answer(key, canPower, finished, prefix, judge, prompts + rest)
            == Answer(key, canPower, finished, prefix, judge, rest)
  {
    if prompts != [] {
      var events := prompts + rest;
      assert events[1..] == prompts[1..] + rest;
      assert events[0] == prompts[0];
      assert Prompted(key, prefix, judge, events[0]);
      assert Answer(key, canPower, finished, prefix, judge, events)
             == Answer(key, canPower, finished, prefix, judge, events[1..]);
      PromptsReopen(key, canPower, finished, prefix, judge, prompts[1..], rest);
    } else {
      assert prompts + rest == rest;
    }
  }

  /**
   * What each outcome of the dialogue implies: a power needs the flag, a
   * ten needs it cleared, a neg means the question was still being read and
   * a dead tossup means it was finished.
   */
  lemma {:induction false} AnswerFlags(key: string, canPower: bool, finished: bool, prefix: string,
                                       judge: (string, string) -> Verdict, events: seq<Event>)
    ensures var o := Answer(key, canPower, finished, prefix, judge, events);
            && (o == Power ==> canPower)
            && (o == Correct ==> !canPower)
            && (o == Neg ==> !finished)
            && (o == Dead ==> finished)
    decreases |events|
  {
    if events != [] && events[0].Msg? && !IsEnd(events[0].content, prefix)
       && judge(key, events[0].content) == Prompt {
      AnswerFlags(key, canPower, finished, prefix, judge, events[1..]);
    }
  }

  /** The end command ends the game whatever the flags and the judge would say. */
  lemma EndWins(key: string, canPower: bool, finished: bool, prefix: string,
                judge: (string, string) -> Verdict, events: seq<Event>)
    requires events != [] && events[0].Msg? && IsEnd(events[0].content, prefix)
    ensures Answer(key, canPower, finished, prefix, judge, events) == EndedByUser
  {
  }

  /**
   * The dialogue's outcome comes from one answer the judge accepted or
   * rejected, or from a miss: the first event that is not a prompt decides.
   */
  lemma {:induction false} FirstDecisive(key: string, canPower: bool, finished: bool, prefix: string,
                                         judge: (string, string) -> Verdict, events: seq<Event>)
    ensures var o := Answer(key, canPower, finished, prefix, judge, events);
            (o == Power || o == Correct) ==>
              exists k :: 0 <= k < |events| && events[k].Msg? && !IsEnd(events[k].content, prefix)
                          && judge(key, events[k].content) == Accept
                          && forall j :: 0 <= j < k ==> Prompted(key, prefix, judge, events[j])
    decreases |events|
  {
    var o := Answer(key, canPower, finished, prefix, judge, events);
    if (o == Power || o == Correct) && judge(key, events[0].content) == Prompt {
      FirstDecisive(key, canPower, finished, prefix, judge, events[1..]);
      var k :| 0 <= k < |events[1..]| && events[1..][k].Msg? && !IsEnd(events[1..][k].content, prefix)
                && judge(key, events[1..][k].content) == Accept
                && forall j :: 0 <= j < k ==> Prompted(key, prefix, judge, events[1..][j]);
      assert events[k + 1] == events[1..][k];
      forall j | 0 <= j < k + 1 ensures Prompted(key, prefix, judge, events[j]) {
        if j > 0 {
          assert events[j] == events[1..][j - 1];
        }
      }
    }
  }

  // ------------------------------------------------------------- whole tossup

  /** What `play_tossup` returns for this question, buzz timing and answer script. */
  function Play(t: Tossup, buzz: Buzz, prefix: string, judge: (string, string) -> Verdict, events: seq<Event>): Outcome {
    match buzz
    case NoBuzz => Dead
    case BuzzAfter(shown, message) =>
      if IsEnd(message, prefix) then EndedByUser
      else
        var parts := Reveal.Lines(t.question, 5, true);
        var n := Reveal.Min(shown, |parts|);
        Answer(AnswerKey(t), PowerFlag(t.question, parts[..n]), shown >= |parts|, prefix, judge, events)
  }

  /**
   * `Tossup.play_tossup`: the question revealed five words at a time with
   * the power mark watched; the reader runs until the buzz, then the
   * dialogue decides.
   */
  method PlayTossup(t: Tossup, buzz: Buzz, prefix: string, judge: (string, string) -> Verdict, events: seq<Event>)
    returns (result: Outcome)
    ensures result == Play(t, buzz, prefix, judge, events)
  {
    var parts := Reveal.GenerateLines(t.question, 5, true);
    match buzz
    case NoBuzz =>
      result := Dead;
    case BuzzAfter(shown, message) =>
      if IsEnd(message, prefix) {
        result := EndedByUser;
      } else {
        var canPower, finished := ReadTossup(t.question, parts, shown);
        result := ListenForAnswer(AnswerKey(t), canPower, finished, prefix, judge, events);
      }
  }

  /**
   * A power needs a `*` in the question and no displayed line that cleared
   * the flag; a neg needs a buzz before the last line; a tossup nobody buzzes
   * on is dead.
   */
  lemma PlayOutcomes(t: Tossup, buzz: Buzz, prefix: string, judge: (string, string) -> Verdict, events: seq<Event>)
    ensures var o := Play(t, buzz, prefix, judge, events);
            var parts := Reveal.Lines(t.question, 5, true);
            && (buzz.NoBuzz? ==> o == Dead)
            && (o == Power ==>
                  && buzz.BuzzAfter? && '*' in t.question
                  && forall k :: 0 <= k < Reveal.Min(buzz.shown, |parts|) ==> !Clears(parts[k]))
            && (o == Neg ==> buzz.BuzzAfter? && buzz.shown < |parts|)
  {
    if buzz.BuzzAfter? && !IsEnd(buzz.message, prefix) {
      var parts := Reveal.Lines(t.question, 5, true);
      var n := Reveal.Min(buzz.shown, |parts|);
      var flag := PowerFlag(t.question, parts[..n]);
      AnswerFlags(AnswerKey(t), flag, buzz.shown >= |parts|, prefix, judge, events);
      PowerFlagClosed(t.question, parts[..n]);
      assert forall k :: 0 <= k < n ==> parts[..n][k] == parts[k];
    }
  }

  // ------------------------------------------------- power window of a reveal

  /** A chunk that shows only words without `*` does not clear the flag. */
  lemma StarFreeChunk(words: seq<string>, c: nat)
    requires c <= |words|
    requires forall j :: 0 <= j < c ==> '*' !in words[j]
    ensures !Clears(Reveal.Chunk(words, c))
  {
    JoinHasChar(words[..c], ' ', '*');
  }

  /** The line that ends on the mark does not clear the flag; the stride line after it does. */
  lemma PowerLinesAroundMark(words: seq<string>, p: nat, e: nat)
    requires p < e <= |words| && words[p] == Reveal.PowerMark
    requires !EndsWith(words[e - 1], Reveal.PowerMark)
    ensures !Clears(Reveal.Chunk(words, p + 1)) && Clears(Reveal.Chunk(words, e))
  {
    JoinEndsWith(words[..p + 1], ' ', Reveal.PowerMark);
    assert words[..e][p] == words[p];
    assert '*' in words[p] by {
      assert words[p][1] == '*';
    }
    JoinHasChar(words[..e], ' ', '*');
    JoinEndsWith(words[..e], ' ', Reveal.PowerMark);
  }

  /**
   * On the words: the power line `k` and every line before it keep the
   * flag, and line `k + 1` clears it.
   */
  lemma ChunkFlags(words: seq<string>, size: nat) returns (k: nat)
    requires size > 0 && |words| > 0 && Reveal.Inserts(words, size, true)
    requires forall j :: 0 <= j < IndexOf(words, Reveal.PowerMark) ==> '*' !in words[j]
    ensures var parts := Reveal.Chunks(words, Reveal.Cuts(words, size, true));
            && k + 1 < |parts|
            && parts[k] == Reveal.Chunk(words, IndexOf(words, Reveal.PowerMark) + 1)
            && (forall m :: 0 <= m <= k ==> !Clears(parts[m]))
            && Clears(parts[k + 1])
  {
    var p := IndexOf(words, Reveal.PowerMark);
    var cuts := Reveal.Cuts(words, size, true);
    var parts := Reveal.Chunks(words, cuts);
    k := Reveal.InsertsPowerCut(words, size, true);
    PowerLinesAroundMark(words, p, cuts[k + 1]);
    Reveal.CutsShape(words, size, true);
    forall m | 0 <= m < k ensures !Clears(parts[m]) {
      assert cuts[m] < cuts[k];
      StarFreeChunk(words, cuts[m]);
    }
  }

  /**
   * The reveal and the flag agree on the power window: when the chunker
   * inserts a power line and no word before the first `(*)` has a `*`, the
   * flag survives every line up to and including the power line (whose last
   * word is the mark) and is cleared by the line after it, so a buzz is a
   * power exactly until that next line is shown.
   */
  lemma PowerWindow(question: string, size: nat)
    requires size > 0 && Reveal.Inserts(Reveal.Words(question), size, true)
    requires var words := Reveal.Words(question);
             forall j :: 0 <= j < IndexOf(words, Reveal.PowerMark) ==> '*' !in words[j]
    ensures var words := Reveal.Words(question);
            var parts := Reveal.Lines(question, size, true);
            exists k :: 0 <= k && k + 1 < |parts|
                        && Split(parts[k], ' ') == words[..IndexOf(words, Reveal.PowerMark) + 1]
                        && (forall n :: 0 <= n <= k + 1 ==> PowerFlag(question, parts[..n]))
                        && (forall n :: k + 2 <= n <= |parts| ==> !PowerFlag(question, parts[..n]))
  {
    var words := Reveal.Words(question);
    var p := IndexOf(words, Reveal.PowerMark);
    var parts := Reveal.Lines(question, size, true);
    var k := ChunkFlags(words, size);
    assert Split(parts[k], ' ') == words[..p + 1] by {
      SplitPiecesFree(Reveal.Normalize(question), ' ');
      Reveal.ChunkSplit(words, p + 1);
    }
    assert '*' in question by {
      assert words[p][1] == '*';
      Reveal.WordCharInText(question, p, '*');
    }
    FlagWindow(question, parts, k);
  }

  /** Lines `0..k` keep the flag and line `k + 1` clears it: the flag is set exactly through line `k`. */
  lemma FlagWindow(question: string, parts: seq<string>, k: nat)
    requires '*' in question && k + 1 < |parts|
    requires forall m :: 0 <= m <= k ==> !Clears(parts[m])
    requires Clears(parts[k + 1])
    ensures forall n :: 0 <= n <= k + 1 ==> PowerFlag(question, parts[..n])
    ensures forall n :: k + 2 <= n <= |parts| ==> !PowerFlag(question, parts[..n])
  {
    forall n | 0 <= n <= k + 1 ensures PowerFlag(question, parts[..n]) {
      PowerFlagClosed(question, parts[..n]);
    }
    forall n | k + 2 <= n <= |parts| ensures !PowerFlag(question, parts[..n]) {
      PowerFlagClosed(question, parts[..n]);
      assert parts[..n][k + 1] == parts[k + 1];
    }
  }
}
