/**
 * `Bonus.play_bonus` and the `pk` session. A bonus has up to three parts;
 * each part waits for the player's answer (messages starting with `_` are
 * ignored), stops the bonus on `>end`, and otherwise asks the judge, which
 * accepts (10 points), rejects (0 points) or prompts for another answer to
 * the same part. `pk` plays bonuses until one is ended, and totals them.
 */
module BonusPlay {
  import opened Wrappers
  import opened Text
  import opened Buzz

  /** A bonus record: its parts, their answers, and the formatted answers when the record has them. */
  datatype BonusRecord = BonusRecord(parts: seq<string>, answers: seq<string>, formattedAnswers: Option<seq<string>>)

  /** What `play_bonus` returns: the points, or the sentinel "user ended bonus"; a timeout escapes as an exception. */
  datatype BonusResult = Scored(points: nat) | UserEnded | TimedOut

  /** How one part ends: with the points it earned, with the end command, or with a timeout. */
  datatype Step = Got(points: nat) | Ended | Expired

  /** The literal the bonus loop checks for; unlike the tossup it ignores the command prefix. */
  const EndCommand: string := ">end"

  /** The answer keys: `formatted_answers`, else (on `KeyError`) `answers`. */
  function Keys(b: BonusRecord): seq<string> {
    match b.formattedAnswers
    case Some(keys) => keys
    case None => b.answers
  }

  function Min(a: nat, b: nat): nat {
    if a <= b then a else b
  }

  /** `zip(bonus["parts"], keys)`: as many pairs as the shorter list. */
  function Pairs(b: BonusRecord): (r: seq<(string, string)>)
    ensures |r| == Min(|b.parts|, |Keys(b)|)
    ensures forall i :: 0 <= i < |r| ==> r[i] == (b.parts[i], Keys(b)[i])
  {
    var keys := Keys(b);
    seq(Min(|b.parts|, |keys|), i requires 0 <= i < Min(|b.parts|, |keys|) => (b.parts[i], keys[i]))
  }

  // ---------------------------------------------------------------- waiting

  /** A message the `wait_for` check passes over: one starting with `_`. */
  predicate Skipped(e: Event) {
    e.Msg? && StartsWith(e.content, "_")
  }

  /**
   * One `wait_for`: the first event that is not an underscore message, and
   * what is left after it. Running out of events is a timeout.
   */
  function Wait(events: seq<Event>): (r: (Event, seq<Event>))
    ensures |r.1| <= |events| && r.1 == events[|events| - |r.1|..]
    ensures !Skipped(r.0)
    ensures r.0.Msg? ==> |r.1| < |events| && events[|events| - |r.1| - 1] == r.0
    ensures r.0.Msg? ==> forall k :: 0 <= k < |events| - |r.1| - 1 ==> Skipped(events[k])
    decreases |events|
  {
    if events == [] then (Timeout, [])
    else if Skipped(events[0]) then Wait(events[1..])
    else (events[0], events[1..])
  }

  // ------------------------------------------------------------------ a part

  /** One part: wait for an answer, then attempt it. */
  function Part(key: string, judge: (string, string) -> Verdict, events: seq<Event>): (r: (Step, seq<Event>))
    ensures r.0.Got? ==> r.0.points == 0 || r.0.points == 10
    ensures |r.1| <= |events|
    decreases |events|, 1
  {
    var w := Wait(events);
    if w.0.Timeout? then (Expired, w.1)
    else Attempt(key, judge, w.0.content, w.1)
  }

  /** The `while True` of a part, with `answer` in hand and `rest` still to come. */
  function Attempt(key: string, judge: (string, string) -> Verdict, answer: string, rest: seq<Event>): (r: (Step, seq<Event>))
    ensures r.0.Got? ==> r.0.points == 0 || r.0.points == 10
    ensures |r.1| <= |rest|
    decreases |rest| + 1, 0
  {
    if StartsWith(answer, EndCommand) then (Ended, rest)
    else match judge(key, answer)
      case Accept => (Got(10), rest)
      case Reject => (Got(0), rest)
      case Prompt => Part(key, judge, rest)
  }

  /** The answer loop of one part: a prompt reads another answer for the same part. */
  method AnswerPart(key: string, judge: (string, string) -> Verdict, events: seq<Event>) returns (step: Step, rest: seq<Event>)
    ensures (step, rest) == Part(key, judge, events)
  {
    var w := Wait(events);
    rest := w.1;
    if w.0.Timeout? {
      return Expired, rest;
    }
    var answer := w.0.content;
    while true
      invariant Attempt(key, judge, answer, rest) == Part(key, judge, events)
      decreases |rest|
    {
      if StartsWith(answer, EndCommand) {
        return Ended, rest;
      }
      match judge(key, answer) {
        case Accept =>
          return Got(10), rest;
        case Reject =>
          return Got(0), rest;
        case Prompt =>
          w := Wait(rest);
          if w.0.Timeout? {
            return Expired, w.1;
          }
          answer, rest := w.0.content, w.1;
      }
    }
  }

  /** A message the part answers with a prompt: not skipped, not the end command, judged `prompt`. */
  predicate Prompted(key: string, judge: (string, string) -> Verdict, e: Event) {
    e.Msg? && !StartsWith(e.content, "_") && !StartsWith(e.content, EndCommand) && judge(key, e.content) == Prompt
  }

  /**
   * Underscore messages and prompted answers leave the part where it was:
   * the part then goes on exactly as if they had never been sent.
   */
  lemma {:induction false} PromptsKeepPart(key: string, judge: (string, string) -> Verdict, run: seq<Event>, rest: seq<Event>)
    requires forall k :: 0 <= k < |run| ==> Skipped(run[k]) || Prompted(key, judge, run[k])
    ensures Part(key, judge, run + rest) == Part(key, judge, rest)
    decreases |run|
  {
    if run == [] {
      assert run + rest == rest;
    } else {
      var events := run + rest;
      assert events[0] == run[0] && events[1..] == run[1..] + rest;
      PromptsKeepPart(key, judge, run[1..], rest);
      if Skipped(run[0]) {
        assert Wait(events) == Wait(events[1..]);
        assert Part(key, judge, events) == Part(key, judge, events[1..]);
      } else {
        assert Wait(events) == (run[0], events[1..]);
        assert Part(key, judge, events) == Attempt(key, judge, run[0].content, events[1..]) == Part(key, judge, events[1..]);
      }
    }
  }

  // ---------------------------------------------------------------- a bonus

  /** The parts from `pairs` on, with `points` so far: the result, and the events left. */
  function Play(pairs: seq<(string, string)>, judge: (string, string) -> Verdict, events: seq<Event>, points: nat): (r: (BonusResult, seq<Event>))
    decreases |pairs|
  {
    if pairs == [] then (Scored(points), events)
    else
      var (step, rest) := Part(pairs[0].1, judge, events);
      match step
      case Ended => (UserEnded, rest)
      case Expired => (TimedOut, rest)
      case Got(p) => Play(pairs[1..], judge, rest, points + p)
  }

  /** `play_bonus` on a fetched record. */
  function Bonus(b: BonusRecord, judge: (string, string) -> Verdict, events: seq<Event>): (BonusResult, seq<Event>) {
    Play(Pairs(b), judge, events, 0)
  }

  /** `play_bonus`: the loop over the parts, adding each part's points. */
  method PlayBonus(b: BonusRecord, judge: (string, string) -> Verdict, events: seq<Event>) returns (result: BonusResult, rest: seq<Event>)
    ensures (result, rest) == Bonus(b, judge, events)
  {
    var pairs := Pairs(b);
    var points := 0;
    rest := events;
    for i := 0 to |pairs|
      invariant Play(pairs[i..], judge, rest, points) == Play(pairs, judge, events, 0)
    {
      assert pairs[i..][0] == pairs[i] && pairs[i..][1..] == pairs[i + 1..];
      var step;
      step, rest := AnswerPart(pairs[i].1, judge, rest);
      match step {
        case Ended =>
          return UserEnded, rest;
        case Expired =>
          return TimedOut, rest;
        case Got(p) =>
          points := points + p;
      }
    }
    assert pairs[|pairs|..] == [];
    result := Scored(points);
  }

  /** The points a bonus adds are a multiple of 10, at most 10 per part. */
  lemma {:induction false} PlayPoints(pairs: seq<(string, string)>, judge: (string, string) -> Verdict, events: seq<Event>, points: nat)
    requires Play(pairs, judge, events, points).0.Scored?
    ensures var p := Play(pairs, judge, events, points).0.points;
      points <= p <= points + 10 * |pairs| && (p - points) % 10 == 0
    decreases |pairs|
  {
    if pairs != [] {
      var (step, rest) := Part(pairs[0].1, judge, events);
      PlayPoints(pairs[1..], judge, rest, points + step.points);
    }
  }

  /** A scored bonus is worth a multiple of 10 points, at most 10 for each paired part. */
  lemma BonusPoints(b: BonusRecord, judge: (string, string) -> Verdict, events: seq<Event>)
    requires Bonus(b, judge, events).0.Scored?
    ensures Bonus(b, judge, events).0.points % 10 == 0
    ensures Bonus(b, judge, events).0.points <= 10 * Min(|b.parts|, |Keys(b)|)
  {
    PlayPoints(Pairs(b), judge, events, 0);
  }

  /** An underscore message while a part waits changes nothing: the bonus goes on as if it had not been sent. */
  lemma SkipIgnored(pairs: seq<(string, string)>, judge: (string, string) -> Verdict, m: Event, events: seq<Event>, points: nat)
    requires pairs != [] && Skipped(m)
    ensures Play(pairs, judge, [m] + events, points) == Play(pairs, judge, events, points)
  {
    PromptsKeepPart(pairs[0].1, judge, [m], events);
  }

  /** The end command at a part's wait ends the bonus and discards the points so far. */
  lemma EndDiscards(pairs: seq<(string, string)>, judge: (string, string) -> Verdict, events: seq<Event>, points: nat)
    requires pairs != [] && Wait(events).0.Msg? && StartsWith(Wait(events).0.content, EndCommand)
    ensures Play(pairs, judge, events, points).0 == UserEnded
  {
    var w := Wait(events);
    assert Part(pairs[0].1, judge, events) == Attempt(pairs[0].1, judge, w.0.content, w.1) == (Ended, w.1);
  }

  /** A part whose answer is accepted adds exactly 10 points and moves on; a rejected one adds 0 and moves on. */
  lemma VerdictPoints(pairs: seq<(string, string)>, judge: (string, string) -> Verdict, events: seq<Event>, points: nat)
    requires pairs != [] && Wait(events).0.Msg?
    requires !StartsWith(Wait(events).0.content, EndCommand)
    requires judge(pairs[0].1, Wait(events).0.content) != Prompt
    ensures Play(pairs, judge, events, points) ==
      Play(pairs[1..], judge, Wait(events).1, points + if judge(pairs[0].1, Wait(events).0.content) == Accept then 10 else 0)
  {
    var w := Wait(events);
    var step := if judge(pairs[0].1, w.0.content) == Accept then 10 else 0;
    assert Part(pairs[0].1, judge, events) == Attempt(pairs[0].1, judge, w.0.content, w.1) == (Got(step), w.1);
  }

  // -------------------------------------------------------------- pk session

  /** The session counters `total_bonuses` and `total_points`. */
  datatype PkStats = PkStats(bonuses: nat, points: nat)

  /**
   * How a `pk` session ends: ended by the player with its totals; aborted by
   * a bonus that timed out; or, since bonuses are fetched without end, still
   * going when the bonuses given to the model run out.
   */
  datatype PkResult = Finished(stats: PkStats) | Aborted | Unfinished(stats: PkStats)

  /** The session from bonus `bonuses[0]` on, with the totals `s` so far. */
  function Pk(bonuses: seq<BonusRecord>, judge: (string, string) -> Verdict, events: seq<Event>, s: PkStats): PkResult
    decreases |bonuses|, 1
  {
    if bonuses == [] then Unfinished(s)
    else Continue(Bonus(bonuses[0], judge, events), bonuses[1..], judge, s)
  }

  /** What the session does with one bonus's result: stop, or count it and go on. */
  function Continue(played: (BonusResult, seq<Event>), more: seq<BonusRecord>, judge: (string, string) -> Verdict, s: PkStats): PkResult
    decreases |more| + 1, 0
  {
    match played.0
    case UserEnded => Finished(s)
    case TimedOut => Aborted
    case Scored(p) => Pk(more, judge, played.1, PkStats(s.bonuses + 1, s.points + p))
  }

  /** `pk`: plays bonuses one after another, counting each scored one. */
  method PkSession(bonuses: seq<BonusRecord>, judge: (string, string) -> Verdict, events: seq<Event>) returns (result: PkResult)
    ensures result == Pk(bonuses, judge, events, PkStats(0, 0))
  {
    ghost var goal := Pk(bonuses, judge, events, PkStats(0, 0));
    var totalPoints: nat := 0;
    var totalBonuses: nat := 0;
    var rest := events;
    var i := 0;
    while i < |bonuses|
      invariant i <= |bonuses|
      invariant Pk(bonuses[i..], judge, rest, PkStats(totalBonuses, totalPoints)) == goal
    {
      assert bonuses[i..][0] == bonuses[i] && bonuses[i..][1..] == bonuses[i + 1..];
      var points, left := PlayBonus(bonuses[i], judge, rest);
      assert Continue((points, left), bonuses[i + 1..], judge, PkStats(totalBonuses, totalPoints)) == goal;
      if points == UserEnded {
        return Finished(PkStats(totalBonuses, totalPoints));
      } else if points == TimedOut {
        return Aborted;
      }
      totalPoints := totalPoints + points.points;
      totalBonuses := totalBonuses + 1;
      rest := left;
      i := i + 1;
    }
    assert bonuses[i..] == [];
    return Unfinished(PkStats(totalBonuses, totalPoints));
  }

  /**
   * The totals only grow: one bonus per scored bonus, never more than were
   * played, and the points by a multiple of 10.
   */
  lemma {:induction false} PkTotals(bonuses: seq<BonusRecord>, judge: (string, string) -> Verdict, events: seq<Event>, s: PkStats)
    requires !Pk(bonuses, judge, events, s).Aborted?
    ensures var t := Pk(bonuses, judge, events, s).stats;
      && s.bonuses <= t.bonuses <= s.bonuses + |bonuses|
      && s.points <= t.points && (t.points - s.points) % 10 == 0
    decreases |bonuses|
  {
    if bonuses != [] {
      var (r, rest) := Bonus(bonuses[0], judge, events);
      if r.Scored? {
        var next := PkStats(s.bonuses + 1, s.points + r.points);
        assert Pk(bonuses, judge, events, s) == Continue((r, rest), bonuses[1..], judge, s) == Pk(bonuses[1..], judge, rest, next);
        BonusPoints(bonuses[0], judge, events);
        PkTotals(bonuses[1..], judge, rest, next);
      } else {
        assert Pk(bonuses, judge, events, s) == Continue((r, rest), bonuses[1..], judge, s) == Finished(s);
      }
    }
  }

  // -------------------------------------------------------------------- PPB

  /** The PPB field as written: `total_points / total_bonuses` raises when no bonus was scored. */
  function PpbAsWritten(s: PkStats): Result<real, string> {
    if s.bonuses == 0 then Err("ZeroDivisionError")
    else Ok(s.points as real / s.bonuses as real)
  }

  /** Ending the first bonus of a session reaches the PPB field with no bonus scored, and it raises. */
  lemma PpbRaisesOnFirstEnd(b: BonusRecord, more: seq<BonusRecord>, judge: (string, string) -> Verdict)
    requires |b.parts| > 0 && |Keys(b)| > 0
    ensures Pk([b] + more, judge, [Msg(EndCommand)], PkStats(0, 0)) == Finished(PkStats(0, 0))
    ensures PpbAsWritten(Pk([b] + more, judge, [Msg(EndCommand)], PkStats(0, 0)).stats).Err?
  {
    var pairs := Pairs(b);
    assert |pairs| > 0;
    assert StartsWith(EndCommand, EndCommand);
    assert EndCommand[..1][0] == '>';
    assert !Skipped(Msg(EndCommand));
    assert Wait([Msg(EndCommand)]) == (Msg(EndCommand), []);
    EndDiscards(pairs, judge, [Msg(EndCommand)], 0);
    assert ([b] + more)[0] == b;
  }

  /** PPB as evidently intended: absent when no bonus was scored, like the tossup's PP20TUH. */
  function Ppb(s: PkStats): (r: Option<real>)
    ensures r.Some? <==> s.bonuses > 0
    ensures r.Some? ==> 0.0 <= r.value && r.value * s.bonuses as real == s.points as real
  {
    if s.bonuses == 0 then None else Some(s.points as real / s.bonuses as real)
  }

  /** The corrected PPB agrees with the written one wherever that one does not raise. */
  lemma PpbAgrees(s: PkStats)
    ensures PpbAsWritten(s).Ok? <==> Ppb(s).Some?
    ensures PpbAsWritten(s).Ok? ==> PpbAsWritten(s).value == Ppb(s).value
  {
  }
}
